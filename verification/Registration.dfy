/**
 Registering an object on a bus: a counted wait for the bus to say, for each requested name, whether it
 was acquired or lost, over a record whose references are counted by hand.
 */
module Registration {
  import opened Numbers

  /** The shared record, and what finishing the operation has done so far. */
  datatype Record = Record(outstanding: nat, pending: bool, error: bool, refs: nat, completions: nat, started: bool)

  /** What happens to the record: a name is requested, reported or given up, or the requesting loop ends. */
  datatype Happening = Own(name: string) | Report(name: string, acquired: bool) | Release | Unown(name: string)

  /** Before the first request the loop holds one callback outstanding, and the operation one reference. */
  const INITIAL: Record := Record(1, true, false, 1, 0, false)

  /** register_on_bus_finish(). */
  function Finish(r: Record): Record {
    r.(started := r.started || !r.error, error := false, completions := r.completions + 1, pending := false,
       refs := if r.refs > 0 then r.refs - 1 else 0)
  }

  /** name_acquired_cb() and the end of name_lost_cb(): bail out unless this is the last callback outstanding. */
  function CountReport(r: Record): Record {
    if !r.pending then r else
      var r' := r.(outstanding := Decrement(r.outstanding));
      if r'.outstanding > 0 then r' else Finish(r')
  }

  function Next(r: Record, h: Happening): Record {
    match h
    case Own(_) => r.(outstanding := (r.outstanding + 1) % GUINT_RANGE, refs := r.refs + 1)
    case Report(_, acquired) => CountReport(if acquired then r else r.(error := true))
    case Release =>
      var r' := r.(outstanding := Decrement(r.outstanding));
      if r'.outstanding == 0 then Finish(r') else r'
    case Unown(_) => r.(refs := if r.refs > 0 then r.refs - 1 else 0)
  }

  /** The record as it is updated in place. */
  class RegisterOnBusData {
    var outstanding: nat
    var asyncPending: bool
    var error: bool
    var refCount: nat
    var completions: nat
    var started: bool

    function AsRecord(): Record
      reads this
    {
      Record(outstanding, asyncPending, error, refCount, completions, started)
    }

    constructor ()
      ensures AsRecord() == INITIAL
    {
      outstanding, asyncPending, error, refCount, completions, started := 1, true, false, 1, 0, false;
    }

    /** Request one more name. */
    method OwnName()
      modifies this
      ensures forall name :: AsRecord() == Next(old(AsRecord()), Own(name))
    {
      outstanding := (outstanding + 1) % GUINT_RANGE;
      refCount := refCount + 1;
    }

    method FinishOperation()
      requires outstanding == 0
      modifies this
      ensures AsRecord() == Finish(old(AsRecord()))
    {
      if !error {
        started := true;
      } else {
        error := false;
      }
      completions := completions + 1;
      asyncPending := false;
      Unref();
    }

    method NameAcquired()
      modifies this
      ensures forall name :: AsRecord() == Next(old(AsRecord()), Report(name, true))
    {
      if !asyncPending {
        return;
      }
      outstanding := Decrement(outstanding);
      if outstanding > 0 {
        return;
      }
      FinishOperation();
    }

    method NameLost()
      modifies this
      ensures forall name :: AsRecord() == Next(old(AsRecord()), Report(name, false))
    {
      if !error {
        error := true;
      }
      if !asyncPending {
        return;
      }
      outstanding := Decrement(outstanding);
      if outstanding > 0 {
        return;
      }
      FinishOperation();
    }

    /** The end of the loop that requests the names. */
    method ReleaseHold()
      modifies this
      ensures AsRecord() == Next(old(AsRecord()), Release)
    {
      outstanding := Decrement(outstanding);
      if outstanding == 0 {
        FinishOperation();
      }
    }

    /** Giving a name up for good drops its reference. */
    method GiveUp()
      modifies this
      ensures forall name :: AsRecord() == Next(old(AsRecord()), Unown(name))
    {
      Unref();
    }

    method Unref()
      modifies this
      ensures AsRecord() == old(AsRecord()).(refs := if old(refCount) > 0 then old(refCount) - 1 else 0)
    {
      if refCount > 0 {
        refCount := refCount - 1;
      }
    }
  }

  // ----- schedules --------------------------------------------------------------------------------

  /** What has happened: the names requested, reported, lost and given up, and whether the loop has ended. */
  datatype History =
    History(owned: set<string>, reported: set<string>, lost: set<string>, unowned: set<string>, released: bool)

  const NOTHING_YET: History := History({}, {}, {}, {}, false)

  function Extend(y: History, h: Happening): History {
    match h
    case Own(name) => y.(owned := y.owned + {name})
    case Report(name, acquired) =>
      y.(reported := y.reported + {name}, lost := if acquired then y.lost else y.lost + {name})
    case Release => y.(released := true)
    case Unown(name) => y.(unowned := y.unowned + {name})
  }

  /** Each name is requested once, before the loop ends, reports once, and after that loop may be given up for good. */
  predicate Allowed(y: History, h: Happening) {
    match h
    case Own(name) => !y.released && name !in y.owned
    case Report(name, _) => name in y.owned && name !in y.reported && name !in y.unowned
    case Release => !y.released
    case Unown(name) => y.released && name in y.owned && name !in y.unowned
  }

  function HistoryOf(hs: seq<Happening>): History {
    if hs == [] then NOTHING_YET else Extend(HistoryOf(hs[..|hs| - 1]), hs[|hs| - 1])
  }

  function RecordAfter(hs: seq<Happening>): Record {
    if hs == [] then INITIAL else Next(RecordAfter(hs[..|hs| - 1]), hs[|hs| - 1])
  }

  predicate Legal(hs: seq<Happening>) {
    hs != [] ==> Legal(hs[..|hs| - 1]) && Allowed(HistoryOf(hs[..|hs| - 1]), hs[|hs| - 1])
  }

  /** The operation is over when the loop has ended and every requested name has reported. */
  predicate Over(y: History) {
    y.released && y.owned == y.reported
  }

  /** How the record reflects what has happened. */
  ghost predicate Reflects(r: Record, y: History) {
    && y.lost <= y.reported <= y.owned && y.unowned <= y.owned
    && r.outstanding == |y.owned - y.reported| + (if y.released then 0 else 1)
    && (r.pending <==> !Over(y))
    && r.refs == |y.owned - y.unowned| + (if Over(y) then 0 else 1)
    && r.completions == (if Over(y) then 1 else 0)
    && (!Over(y) ==> (r.error <==> y.lost != {}))
    && (r.started <==> Over(y) && y.lost == {})
  }

  lemma RemoveOne(s: set<string>, t: set<string>, name: string)
    requires name in s && name !in t
    ensures |s - (t + {name})| == |s - t| - 1
  {
    assert s - (t + {name}) == (s - t) - {name};
  }

  lemma AddOne(s: set<string>, t: set<string>, name: string)
    requires name !in s && name !in t
    ensures |(s + {name}) - t| == |s - t| + 1
  {
    assert (s + {name}) - t == (s - t) + {name};
  }

  lemma OwnKeeps(r: Record, y: History, name: string)
    requires Reflects(r, y) && Allowed(y, Own(name)) && |y.owned| + 2 < GUINT_RANGE
    ensures Reflects(Next(r, Own(name)), Extend(y, Own(name)))
  {
    AddOne(y.owned, y.reported, name);
    AddOne(y.owned, y.unowned, name);
    Smaller(y.owned - y.reported, y.owned);
  }

  lemma Smaller(s: set<string>, t: set<string>)
    requires s <= t
    ensures |s| <= |t|
  {
    assert t == s + (t - s);
  }

  lemma OneLess(owned: set<string>, reported: set<string>, name: string)
    requires reported <= owned && name in owned && name !in reported
    ensures |owned - (reported + {name})| == |owned - reported| - 1
    ensures owned != reported && (owned == reported + {name} <==> |owned - reported| == 1)
  {
    RemoveOne(owned, reported, name);
    if |owned - (reported + {name})| == 0 { assert owned - (reported + {name}) == {}; }
  }

  lemma ReportKeeps(r: Record, y: History, name: string, acquired: bool)
    requires Reflects(r, y) && Allowed(y, Report(name, acquired)) && |y.owned| + 1 < GUINT_RANGE
    ensures Reflects(Next(r, Report(name, acquired)), Extend(y, Report(name, acquired)))
  {
    OneLess(y.owned, y.reported, name);
    Smaller(y.owned - y.reported, y.owned);
    if !acquired { assert name in Extend(y, Report(name, acquired)).lost; }
  }

  lemma ReleaseKeeps(r: Record, y: History)
    requires Reflects(r, y) && Allowed(y, Release) && |y.owned| + 1 < GUINT_RANGE
    ensures Reflects(Next(r, Release), Extend(y, Release))
  {
    Smaller(y.owned - y.reported, y.owned);
    assert y.owned == y.reported <==> |y.owned - y.reported| == 0 by {
      if |y.owned - y.reported| == 0 { assert y.owned - y.reported == {}; }
    }
  }

  lemma UnownKeeps(r: Record, y: History, name: string)
    requires Reflects(r, y) && Allowed(y, Unown(name))
    ensures Reflects(Next(r, Unown(name)), Extend(y, Unown(name)))
  {
    RemoveOne(y.owned, y.unowned, name);
  }

  /** In every legal interleaving the record reflects exactly what has happened. */
  lemma {:induction false} RecordReflects(hs: seq<Happening>)
    requires Legal(hs) && |hs| + 2 < GUINT_RANGE
    ensures Reflects(RecordAfter(hs), HistoryOf(hs)) && |HistoryOf(hs).owned| <= |hs|
  {
    hide Reflects, Next, Allowed;
    if hs == [] {
      InitiallyReflects();
    } else {
      var init, h := hs[..|hs| - 1], hs[|hs| - 1];
      RecordReflects(init);
      match h
      case Own(name) => OwnKeeps(RecordAfter(init), HistoryOf(init), name);
      case Report(name, acquired) => ReportKeeps(RecordAfter(init), HistoryOf(init), name, acquired);
      case Release => ReleaseKeeps(RecordAfter(init), HistoryOf(init));
      case Unown(name) => UnownKeeps(RecordAfter(init), HistoryOf(init), name);
    }
  }

  lemma InitiallyReflects()
    ensures Reflects(INITIAL, NOTHING_YET)
  {
  }

  /**
   The operation completes exactly once, at the very moment the loop has ended and the last name has
   reported, and starts the simulation then just when no name was lost.
   */
  lemma FinishesExactlyOnce(hs: seq<Happening>)
    requires Legal(hs) && |hs| + 2 < GUINT_RANGE
    ensures RecordAfter(hs).completions == if Over(HistoryOf(hs)) then 1 else 0
    ensures RecordAfter(hs).started <==> Over(HistoryOf(hs)) && HistoryOf(hs).lost == {}
  {
    RecordReflects(hs);
  }

  /** Whatever legally happens next finds the record alive, and no decrement goes below zero. */
  lemma NeverUsedAfterFree(hs: seq<Happening>, h: Happening)
    requires Legal(hs) && |hs| + 2 < GUINT_RANGE && Allowed(HistoryOf(hs), h)
    ensures RecordAfter(hs).refs > 0
    ensures (h.Report? && RecordAfter(hs).pending) || h.Release? ==> RecordAfter(hs).outstanding > 0
  {
    RecordReflects(hs);
    var y := HistoryOf(hs);
    match h
    case Report(name, _) =>
      assert name in y.owned - y.reported && name in y.owned - y.unowned;
      assert y.owned - y.reported != {} && y.owned - y.unowned != {};
    case Unown(name) => assert name in y.owned - y.unowned;
    case _ =>
  }

  /** The record is freed just when the operation is over and every name has been given up. */
  lemma FreedAtTheEnd(hs: seq<Happening>)
    requires Legal(hs) && |hs| + 2 < GUINT_RANGE
    ensures RecordAfter(hs).refs == 0 <==> Over(HistoryOf(hs)) && HistoryOf(hs).unowned == HistoryOf(hs).owned
  {
    RecordReflects(hs);
    var y := HistoryOf(hs);
    if |y.owned - y.unowned| == 0 { assert y.owned - y.unowned == {}; }
  }

  // ----- names that report more than once ---------------------------------------------------------

  /** The answers of all reports so far, in order, however often each name has reported. */
  function Reports(hs: seq<Happening>): seq<bool> {
    if hs == [] then [] else
      var h := hs[|hs| - 1];
      Reports(hs[..|hs| - 1]) + if h.Report? then [h.acquired] else []
  }

  /** Like Allowed, but a name may report again, as one that is acquired and then lost does. */
  predicate AllowedAgain(y: History, h: Happening) {
    if h.Report? then h.name in y.owned && h.name !in y.unowned else Allowed(y, h)
  }

  predicate LegalAgain(hs: seq<Happening>) {
    hs != [] ==> LegalAgain(hs[..|hs| - 1]) && AllowedAgain(HistoryOf(hs[..|hs| - 1]), hs[|hs| - 1])
  }

  /**
   Whether the operation was over while names were still being requested, how many reports there had been then,
   how many names have been requested since, and how many reports there had been when the loop ended.
   */
  datatype Tally = Tally(early: bool, cut: nat, since: nat, atRelease: nat)

  function TallyOf(hs: seq<Happening>): Tally {
    if hs == [] then Tally(false, 0, 0, 0) else
      Counted(TallyOf(hs[..|hs| - 1]), HistoryOf(hs[..|hs| - 1]), |Reports(hs[..|hs| - 1])|, hs[|hs| - 1])
  }

  function Counted(t: Tally, y: History, reports: nat, h: Happening): Tally {
    match h
    case Own(_) => if t.early then t.(since := t.since + 1) else t
    case Report(_, _) =>
      if !t.early && !y.released && reports == |y.owned| then t.(early := true, cut := reports + 1, since := 0) else t
    case Release => t.(atRelease := reports)
    case Unown(_) => t
  }

  /** More reports than names before the loop has ended. */
  predicate TooManyReports(hs: seq<Happening>) {
    !HistoryOf(hs).released && |Reports(hs)| > |HistoryOf(hs).owned|
  }

  /** The operation is over early just when at some time, before the loop has ended, there have been too many. */
  lemma {:induction false} EarlyIff(hs: seq<Happening>)
    ensures TallyOf(hs).early <==> exists i | 0 <= i <= |hs| :: TooManyReports(hs[..i])
    decreases |hs|
  {
    hide TooManyReports;
    assert hs[..|hs|] == hs;
    if hs == [] {
      NotTooMany(hs);
    } else {
      var init := hs[..|hs| - 1];
      EarlyIff(init);
      assert forall i | 0 <= i <= |init| :: init[..i] == hs[..i];
      EarlyStep(hs);
    }
  }

  lemma EarlyStep(hs: seq<Happening>)
    requires hs != []
    ensures TallyOf(hs).early <==> TallyOf(hs[..|hs| - 1]).early || TooManyReports(hs)
  {
    NotTooMany(hs);
    NotTooMany(hs[..|hs| - 1]);
  }

  lemma {:induction false} NotTooMany(hs: seq<Happening>)
    ensures !TallyOf(hs).early ==> !TooManyReports(hs)
    decreases |hs|
  {
    if hs != [] {
      var init, h := hs[..|hs| - 1], hs[|hs| - 1];
      NotTooMany(init);
      if h.Own? { Smaller(HistoryOf(init).owned, HistoryOf(hs).owned); }
    }
  }

  /** The loop has ended, and there have been as many reports as names, whichever names they are of. */
  predicate CountedDown(y: History, rs: seq<bool>) {
    y.released && |rs| >= |y.owned|
  }

  /** The record of an operation that was not over early. */
  ghost predicate OnTime(r: Record, y: History, rs: seq<bool>) {
    var done := CountedDown(y, rs);
    && (!y.released ==> |rs| <= |y.owned|)
    && (r.pending <==> !done)
    && r.outstanding == (if !y.released then |y.owned| + 1 - |rs| else if done then 0 else |y.owned| - |rs|)
    && r.refs == |y.owned - y.unowned| + (if done then 0 else 1)
    && r.completions == (if done then 1 else 0)
    && (!done ==> (r.error <==> false in rs))
    && (r.started <==> done && false !in rs[..|y.owned|])
  }

  /** One name was requested after the early end: the end of the loop takes it for the last one outstanding. */
  predicate Twice(y: History, t: Tally) {
    y.released && t.since == 1
  }

  /** The record of one that was: later reports are not counted, and the end of the loop may end it again. */
  ghost predicate TooEarly(r: Record, y: History, rs: seq<bool>, t: Tally) {
    && !r.pending && 0 < t.cut <= |rs| && t.since <= |y.owned|
    && (y.released ==> t.cut <= t.atRelease <= |rs|)
    && r.outstanding == (if y.released then Decrement(t.since) else t.since)
    && r.completions == (if Twice(y, t) then 2 else 1)
    && r.refs ==
      (if !Twice(y, t) then |y.owned - y.unowned| else if y.owned <= y.unowned then 0 else |y.owned - y.unowned| - 1)
    && (r.started <==> false !in rs[..t.cut] || (Twice(y, t) && false !in rs[t.cut..t.atRelease]))
    && (r.error <==> false in rs[if Twice(y, t) then t.atRelease else t.cut..])
  }

  ghost predicate Counts(r: Record, y: History, rs: seq<bool>, t: Tally) {
    && y.unowned <= y.owned && (!y.released ==> y.unowned == {})
    && if t.early then TooEarly(r, y, rs, t) else OnTime(r, y, rs)
  }

  lemma OwnCounts(r: Record, y: History, rs: seq<bool>, t: Tally, name: string)
    requires Counts(r, y, rs, t) && Allowed(y, Own(name)) && |y.owned| + 2 < GUINT_RANGE
    ensures Counts(Next(r, Own(name)), Extend(y, Own(name)), rs, Counted(t, y, |rs|, Own(name)))
  {
    AddOne(y.owned, {}, name);
    assert (y.owned + {name}) - {} == y.owned + {name} && y.owned - {} == y.owned;
  }

  lemma ReportCountsOnTime(r: Record, y: History, rs: seq<bool>, t: Tally, name: string, acquired: bool)
    requires Counts(r, y, rs, t) && !t.early && AllowedAgain(y, Report(name, acquired)) && |y.owned| + 1 < GUINT_RANGE
    ensures Counts(Next(r, Report(name, acquired)), Extend(y, Report(name, acquired)), rs + [acquired],
                   Counted(t, y, |rs|, Report(name, acquired)))
  {
    assert y.owned != {};
    var all := rs + [acquired];
    if y.released {
      if |rs| >= |y.owned| { assert all[..|y.owned|] == rs[..|y.owned|]; }
      if |rs| + 1 == |y.owned| { assert all[..|y.owned|] == all; }
    } else if |rs| == |y.owned| {
      assert all[..|rs| + 1] == all && all[|rs| + 1..] == [];
    }
  }

  lemma ReportCountsTooEarly(r: Record, y: History, rs: seq<bool>, t: Tally, name: string, acquired: bool)
    requires Counts(r, y, rs, t) && t.early && AllowedAgain(y, Report(name, acquired))
    ensures Counts(Next(r, Report(name, acquired)), Extend(y, Report(name, acquired)), rs + [acquired],
                   Counted(t, y, |rs|, Report(name, acquired)))
  {
    var all := rs + [acquired];
    assert all[..t.cut] == rs[..t.cut] && all[t.cut..] == rs[t.cut..] + [acquired];
    if y.released {
      assert all[t.cut..t.atRelease] == rs[t.cut..t.atRelease];
      assert all[t.atRelease..] == rs[t.atRelease..] + [acquired];
    }
  }

  lemma UnownCounts(r: Record, y: History, rs: seq<bool>, t: Tally, name: string)
    requires Counts(r, y, rs, t) && Allowed(y, Unown(name))
    ensures Counts(Next(r, Unown(name)), Extend(y, Unown(name)), rs, t)
  {
    OneLess(y.owned, y.unowned, name);
    if t.early { Subset(y.owned, y.unowned + {name}); }
  }

  lemma Subset(s: set<string>, t: set<string>)
    ensures s <= t <==> |s - t| == 0
  {
    if |s - t| == 0 {
      assert s - t == {};
      forall x | x in s ensures x in t { assert x !in s - t; }
    }
    if s <= t { assert s - t == {}; }
  }

  lemma ReleaseCounts(r: Record, y: History, rs: seq<bool>, t: Tally)
    requires Counts(r, y, rs, t) && Allowed(y, Release) && |y.owned| + 1 < GUINT_RANGE
    ensures Counts(Next(r, Release), Extend(y, Release), rs, Counted(t, y, |rs|, Release))
  {
    assert y.owned - {} == y.owned;
    if t.early {
      assert rs[t.cut..|rs|] == rs[t.cut..] && rs[|rs|..] == [];
    } else {
      assert rs[..|rs|] == rs;
    }
  }

  /**
   When names may report again the record counts reports, not names. The operation completes as soon as the loop
   has ended and there have been as many reports as names, and starts the simulation just when none of those was
   a loss. If there are more reports than names while the loop is still requesting, it completes at once, and
   again at the end of the loop if exactly one name was requested in between.
   */
  lemma {:induction false} ReportsAreCounted(hs: seq<Happening>)
    requires LegalAgain(hs) && |hs| + 2 < GUINT_RANGE
    ensures Counts(RecordAfter(hs), HistoryOf(hs), Reports(hs), TallyOf(hs)) && |HistoryOf(hs).owned| <= |hs|
    decreases |hs|
  {
    hide Counts, Next, Allowed, AllowedAgain, Counted;
    if hs == [] {
      InitiallyCounts();
    } else {
      var init, h := hs[..|hs| - 1], hs[|hs| - 1];
      ReportsAreCounted(init);
      var r, y, rs, t := RecordAfter(init), HistoryOf(init), Reports(init), TallyOf(init);
      assert rs + [] == rs;
      match h
      case Own(name) => OwnCounts(r, y, rs, t, name) by { SameAllowed(y, h); }
      case Report(name, acquired) =>
        if t.early {
          ReportCountsTooEarly(r, y, rs, t, name, acquired);
        } else {
          ReportCountsOnTime(r, y, rs, t, name, acquired);
        }
      case Release => ReleaseCounts(r, y, rs, t) by { SameAllowed(y, h); }
      case Unown(name) =>
        UnownCounts(r, y, rs, t, name) by { SameAllowed(y, h); }
        assert Counted(t, y, |rs|, h) == t by { UnownIsNotCounted(t, y, |rs|, h); }
    }
  }

  lemma UnownIsNotCounted(t: Tally, y: History, reports: nat, h: Happening)
    requires h.Unown?
    ensures Counted(t, y, reports, h) == t
  {
  }

  lemma SameAllowed(y: History, h: Happening)
    requires AllowedAgain(y, h) && !h.Report?
    ensures Allowed(y, h)
  {
  }

  lemma InitiallyCounts()
    ensures Counts(INITIAL, NOTHING_YET, [], Tally(false, 0, 0, 0))
  {
  }

  /** The operation is over before some name has reported just when other names have reported again instead. */
  lemma FinishesEarlyIff(hs: seq<Happening>)
    requires LegalAgain(hs) && |hs| + 2 < GUINT_RANGE
    ensures var y := HistoryOf(hs);
      RecordAfter(hs).completions > 0 && y.reported != y.owned <==>
        (TallyOf(hs).early || (y.released && |Reports(hs)| >= |y.owned|)) && |y.owned| > |y.reported|
  {
    ReportsAreCounted(hs);
    ReportedWithin(hs);
    var y := HistoryOf(hs);
    Smaller(y.reported, y.owned);
    assert y.owned == y.reported + (y.owned - y.reported);
    if |y.owned - y.reported| == 0 { assert y.owned - y.reported == {}; }
  }

  /** It never completes more than twice, and twice just when the loop requests one more name after an early end. */
  lemma CompletesTwiceIff(hs: seq<Happening>)
    requires LegalAgain(hs) && |hs| + 2 < GUINT_RANGE
    ensures RecordAfter(hs).completions <= 2
    ensures RecordAfter(hs).completions == 2 <==>
      TallyOf(hs).early && HistoryOf(hs).released && TallyOf(hs).since == 1
  {
    ReportsAreCounted(hs);
  }

  lemma {:induction false} ReportedWithin(hs: seq<Happening>)
    requires LegalAgain(hs)
    ensures HistoryOf(hs).reported <= HistoryOf(hs).owned
    decreases |hs|
  {
    if hs != [] { ReportedWithin(hs[..|hs| - 1]); }
  }

  /** A name that is acquired and then lost again while another is awaited ends the operation early. */
  lemma SecondReportFinishesEarly(a: string, b: string)
    requires a != b
    ensures var hs := [Own(a), Own(b), Release, Report(a, true), Report(a, false)];
      RecordAfter(hs).completions == 1 && b !in HistoryOf(hs).reported && !Legal(hs)
  {
    var h1, h2, h3 := Own(a), Own(b), Release;
    var h4, h5 := Report(a, true), Report(a, false);
    var hs := [h1, h2, h3, h4, h5];
    assert hs[..4] == [h1, h2, h3, h4] && hs[..4][..3] == [h1, h2, h3];
    assert hs[..4][..3][..2] == [h1, h2] && [h1, h2][..1] == [h1] && [h1][..0] == [];
    var r2 := Next(Next(INITIAL, h1), h2);
    assert RecordAfter([h1]) == Next(INITIAL, h1) && RecordAfter([h1, h2]) == r2;
    assert RecordAfter([h1, h2, h3]) == Next(r2, h3);
    assert RecordAfter(hs[..4]) == Next(Next(r2, h3), h4);
    assert HistoryOf([h1]) == Extend(NOTHING_YET, h1);
    assert HistoryOf([h1, h2]) == Extend(Extend(NOTHING_YET, h1), h2);
    assert HistoryOf([h1, h2, h3]) == Extend(HistoryOf([h1, h2]), h3);
    assert HistoryOf(hs[..4]) == Extend(HistoryOf([h1, h2, h3]), h4);
  }

  // ----- driving the record -----------------------------------------------------------------------

  /** The names of a list, each where it first occurs. */
  function FirstOccurrences(names: seq<string>): (ds: seq<string>)
    ensures forall name :: name in ds <==> name in names
  {
    if names == [] then [] else
      var init, last := names[..|names| - 1], names[|names| - 1];
      assert names == init + [last];
      if last in init then FirstOccurrences(init) else FirstOccurrences(init) + [last]
  }

  function Requests(ds: seq<string>): seq<Happening> {
    seq(|ds|, i requires 0 <= i < |ds| => Own(ds[i]))
  }

  /** What the requesting loop does: each name is requested once, and then the hold is released. */
  function Loop(names: seq<string>): seq<Happening> {
    Requests(FirstOccurrences(names)) + [Release]
  }

  lemma RecordGrows(hs: seq<Happening>, h: Happening)
    ensures RecordAfter(hs + [h]) == Next(RecordAfter(hs), h) && HistoryOf(hs + [h]) == Extend(HistoryOf(hs), h)
    ensures Legal(hs + [h]) <==> Legal(hs) && Allowed(HistoryOf(hs), h)
  {
    assert (hs + [h])[..|hs|] == hs;
  }

  lemma RequestsGrow(ds: seq<string>, name: string)
    ensures Requests(ds + [name]) == Requests(ds) + [Own(name)]
  {
  }

  lemma NamesGrow(names: seq<string>, name: string)
    ensures (set x | x in names + [name]) == (set x | x in names) + {name}
    ensures name in names ==> (set x | x in names + [name]) == (set x | x in names)
  {
  }

  lemma {:induction false} RequestsAreLegal(names: seq<string>)
    ensures var hs := Requests(FirstOccurrences(names));
      Legal(hs) && HistoryOf(hs) == NOTHING_YET.(owned := set name | name in names)
  {
    hide Requests, RecordAfter, Next;
    if names == [] {
      assert Requests([]) == [] by { NoRequests(); }
      assert (set name: string | name in names) == {};
    } else {
      var init, last := names[..|names| - 1], names[|names| - 1];
      assert names == init + [last];
      RequestsAreLegal(init);
      NamesGrow(init, last);
      if last !in init {
        RequestsGrow(FirstOccurrences(init), last);
        RecordGrows(Requests(FirstOccurrences(init)), Own(last));
      }
    }
  }

  lemma NoRequests()
    ensures Requests([]) == []
  {
  }

  /** The loop is legal whatever names are asked for, even twice, and asks for all of them. */
  lemma LoopIsLegal(names: seq<string>)
    ensures Legal(Loop(names))
    ensures HistoryOf(Loop(names)) == NOTHING_YET.(released := true, owned := (set name | name in names))
  {
    RequestsAreLegal(names);
    RecordGrows(Requests(FirstOccurrences(names)), Release);
  }

  /** The loop of dfsm_object_register_on_bus() over the names, which skips those requested before. */
  method RequestNames(data: RegisterOnBusData, names: seq<string>)
    requires data.AsRecord() == INITIAL
    modifies data
    ensures data.AsRecord() == RecordAfter(Loop(names))
  {
    var requested: set<string> := {};
    for i := 0 to |names|
      invariant forall name :: name in requested <==> name in names[..i]
      invariant data.AsRecord() == RecordAfter(Requests(FirstOccurrences(names[..i])))
    {
      assert names[..i + 1] == names[..i] + [names[i]];
      if names[i] !in requested {
        data.OwnName();
        ghost var before := FirstOccurrences(names[..i]);
        RecordGrows(Requests(before), Own(names[i]));
        assert Requests(before + [names[i]]) == Requests(before) + [Own(names[i])];
        requested := requested + {names[i]};
      }
    }
    assert names[..|names|] == names;
    RecordGrows(Requests(FirstOccurrences(names)), Release);
    data.ReleaseHold();
  }

  /** Let a schedule of callbacks happen to the record. */
  method Replay(data: RegisterOnBusData, ghost before: seq<Happening>, hs: seq<Happening>)
    requires data.AsRecord() == RecordAfter(before)
    modifies data
    ensures data.AsRecord() == RecordAfter(before + hs)
  {
    hide Next;
    assert before + [] == before;
    for i := 0 to |hs|
      invariant data.AsRecord() == RecordAfter(before + hs[..i])
    {
      RecordGrows(before + hs[..i], hs[i]);
      assert before + hs[..i + 1] == before + hs[..i] + [hs[i]];
      match hs[i] {
        case Own(_) => data.OwnName();
        case Report(_, acquired) =>
          if acquired {
            data.NameAcquired();
          } else {
            data.NameLost();
          }
        case Release => data.ReleaseHold();
        case Unown(_) => data.GiveUp();
      }
    }
    assert hs[..|hs|] == hs;
  }

  /** Registering with any names and any legal callbacks: the one completion comes when all names have reported. */
  method Register(names: seq<string>, callbacks: seq<Happening>) returns (data: RegisterOnBusData)
    requires Legal(Loop(names) + callbacks) && |names| + |callbacks| + 3 < GUINT_RANGE
    ensures fresh(data) && data.AsRecord() == RecordAfter(Loop(names) + callbacks)
    ensures var y := HistoryOf(Loop(names) + callbacks);
      data.completions == (if Over(y) then 1 else 0) && (data.started <==> Over(y) && y.lost == {})
  {
    data := new RegisterOnBusData();
    RequestNames(data, names);
    Replay(data, Loop(names), callbacks);
    FewerOccurrences(names);
    FinishesExactlyOnce(Loop(names) + callbacks);
  }

  lemma {:induction false} FewerOccurrences(names: seq<string>)
    ensures |FirstOccurrences(names)| <= |names|
  {
    if names != [] { FewerOccurrences(names[..|names| - 1]); }
  }
}
