/** Batch metrics: one observation a batch, however the driver's callbacks come (metrics.go). */
module Metrics {
  import opened Wrappers

  const TWO_TO_63 := 0x8000_0000_0000_0000

  /** int64 arithmetic. */
  function Wrap(n: int): int { (n + TWO_TO_63) % (2 * TWO_TO_63) - TWO_TO_63 }

  /** The number itself if it fits an int64, and else the one that fits and differs by a multiple of
      two to the 64th. */
  lemma WrapFits(n: int)
    ensures -0x8000_0000_0000_0000 <= Wrap(n) <= 0x7FFF_FFFF_FFFF_FFFF
    ensures (Wrap(n) - n) % 0x1_0000_0000_0000_0000 == 0
    ensures -0x8000_0000_0000_0000 <= n <= 0x7FFF_FFFF_FFFF_FFFF ==> Wrap(n) == n
  {
  }

  lemma WrapOfSum(a: int, b: int)
    ensures Wrap(Wrap(a) + b) == Wrap(a + b)
  {
  }

  datatype Metric = Metric(batch: nat, rows: int, err: Option<Error>)

  // ---- The callbacks ----------------------------------------------------------------------

  /** One batch while its results are read. */
  class BatchStart {
    const id: nat
    var rows: int
    var err: Option<Error>
    var ended: bool

    constructor (id: nat)
      ensures this.id == id && rows == 0 && err == None && !ended
    {
      this.id := id;
      rows, err, ended := 0, None, false;
    }

    function State(): Batch
      reads this
    {
      Batch(rows, err, ended)
    }
  }

  /** What the callbacks keep of a batch. */
  datatype Batch = Batch(rows: int, err: Option<Error>, ended: bool)

  function QueryStep(b: Batch, rows: int, err: Option<Error>): Batch {
    if b.ended then b else Batch(Wrap(b.rows + rows), if b.err == None then err else b.err, false)
  }

  function EndStep(b: Batch): Batch { b.(ended := true) }

  function EndMetric(id: nat, b: Batch, err: Option<Error>): seq<Metric> {
    if b.ended then [] else [Metric(id, b.rows, if err == None then b.err else err)]
  }

  /** The tracer, and the metrics its callback has been given. */
  class Tracer {
    var emitted: seq<Metric>

    constructor ()
      ensures emitted == []
    {
      emitted := [];
    }

    /** Batches are told apart by a number the caller gives them. */
    method TraceBatchStart(id: nat) returns (start: BatchStart)
      ensures fresh(start) && start.id == id && start.State() == Batch(0, None, false)
    {
      start := new BatchStart(id);
    }

    /** A context without a batch is ignored, and so is a batch that has ended. */
    method TraceBatchQuery(start: BatchStart?, rows: int, err: Option<Error>)
      modifies start
      ensures start != null ==> start.State() == QueryStep(old(start.State()), rows, err)
    {
      if start == null || start.ended {
        return;
      }
      start.rows := Wrap(start.rows + rows);
      if start.err == None {
        start.err := err;
      }
    }

    method TraceBatchEnd(start: BatchStart?, err: Option<Error>)
      modifies this, start
      ensures start != null ==> start.State() == EndStep(old(start.State()))
      ensures emitted == old(emitted) + if start == null then [] else EndMetric(start.id, old(start.State()), err)
    {
      if start == null || start.ended {
        return;
      }
      start.ended := true;
      var e := err;
      if e == None {
        e := start.err;
      }
      emitted := emitted + [Metric(start.id, start.rows, e)];
    }
  }

  // ---- Any interleaving -------------------------------------------------------------------

  /** A callback: a batch starts and takes the next number, or one of its results is read, or it ends. */
  datatype Event = Start | Query(batch: nat, rows: int, err: Option<Error>) | End(batch: nat, err: Option<Error>)

  datatype System = System(batches: seq<Batch>, emitted: seq<Metric>)

  /** One callback. An event of a batch that never started has no batch in its context. */
  function Step(s: System, e: Event): System {
    match e
    case Start => s.(batches := s.batches + [Batch(0, None, false)])
    case Query(b, rows, err) =>
      if b < |s.batches| then s.(batches := s.batches[b := QueryStep(s.batches[b], rows, err)]) else s
    case End(b, err) =>
      if b < |s.batches|
      then System(s.batches[b := EndStep(s.batches[b])], s.emitted + EndMetric(b, s.batches[b], err))
      else s
  }

  function Run(events: seq<Event>): System {
    if events == [] then System([], []) else Step(Run(events[..|events| - 1]), events[|events| - 1])
  }

  // ---- What each batch should report ------------------------------------------------------

  function Starts(events: seq<Event>): nat {
    if events == [] then 0 else Starts(events[..|events| - 1]) + if events[|events| - 1].Start? then 1 else 0
  }

  /** The events of batch b: those that name it, once it has started. */
  function Own(events: seq<Event>, b: nat): seq<Event> {
    if events == [] then []
    else
      var front, last := events[..|events| - 1], events[|events| - 1];
      Own(front, b) + (if !last.Start? && last.batch == b && b < Starts(front) then [last] else [])
  }

  function UntilEnd(events: seq<Event>): (before: seq<Event>)
    ensures before <= events
    ensures forall i :: 0 <= i < |before| ==> !before[i].End?
    ensures |before| < |events| ==> events[|before|].End?
  {
    if events == [] || events[0].End? then [] else [events[0]] + UntilEnd(events[1..])
  }

  function TotalRows(events: seq<Event>): int {
    if events == [] then 0
    else TotalRows(events[..|events| - 1]) + if events[|events| - 1].Query? then events[|events| - 1].rows else 0
  }

  function FirstError(events: seq<Event>): Option<Error> {
    if events == [] then None
    else
      var before := FirstError(events[..|events| - 1]);
      if before == None && events[|events| - 1].Query? then events[|events| - 1].err else before
  }

  /** At most one metric: at its first end, the rows of its results before it, and the error it
      ended with or else the first error of a result. */
  function Expected(own: seq<Event>, b: nat): seq<Metric> {
    var before := UntilEnd(own);
    if |before| == |own| then []
    else
      var end := own[|before|];
      [Metric(b, Wrap(TotalRows(before)), if end.err != None then end.err else FirstError(before))]
  }

  function MetricsOf(emitted: seq<Metric>, b: nat): seq<Metric> {
    if emitted == [] then []
    else
      MetricsOf(emitted[..|emitted| - 1], b)
      + (if emitted[|emitted| - 1].batch == b then [emitted[|emitted| - 1]] else [])
  }

  /** One more event changes what came before the end only if there was no end yet. */
  lemma {:induction false} UntilEndNext(events: seq<Event>, e: Event)
    ensures
      var before := UntilEnd(events);
      UntilEnd(events + [e]) == if |before| == |events| && !e.End? then events + [e] else before
  {
    if events == [] {
      assert [e][1..] == [];
    } else if !events[0].End? {
      assert (events + [e])[1..] == events[1..] + [e];
      UntilEndNext(events[1..], e);
      assert [events[0]] + (events[1..] + [e]) == events + [e];
    }
  }

  /** The state of a batch is told by its own events before its first end. */
  ghost predicate Tracks(s: System, events: seq<Event>, b: nat) {
    var own := Own(events, b);
    && |s.batches| == Starts(events)
    && (b >= Starts(events) ==> own == [])
    && (b < Starts(events) ==> s.batches[b] == Kept(own))
    && MetricsOf(s.emitted, b) == Expected(own, b)
  }

  lemma MetricsOfNext(emitted: seq<Metric>, more: seq<Metric>, b: nat)
    requires |more| <= 1
    ensures MetricsOf(emitted + more, b)
            == MetricsOf(emitted, b) + if more != [] && more[0].batch == b then more else []
  {
    if more == [] {
      assert emitted + more == emitted;
    } else {
      assert (emitted + more)[..|emitted|] == emitted;
    }
  }

  lemma OwnNext(events: seq<Event>, e: Event, b: nat)
    ensures Own(events + [e], b) == Own(events, b) + if !e.Start? && e.batch == b && b < Starts(events) then [e] else []
    ensures Starts(events + [e]) == Starts(events) + if e.Start? then 1 else 0
  {
    assert (events + [e])[..|events|] == events;
  }

  /** An event of another batch, or of none, leaves this one as it was. */
  lemma OtherEventsLeave(s: System, events: seq<Event>, e: Event, b: nat)
    requires Tracks(s, events, b) && !e.Start? && (e.batch != b || b >= |s.batches|)
    ensures Tracks(Step(s, e), events + [e], b)
  {
    OwnNext(events, e, b);
    assert Own(events + [e], b) == Own(events, b);
    if e.End? && e.batch < |s.batches| {
      MetricsOfNext(s.emitted, EndMetric(e.batch, s.batches[e.batch], e.err), b);
    }
  }

  lemma StartLeaves(s: System, events: seq<Event>, b: nat)
    requires Tracks(s, events, b)
    ensures Tracks(Step(s, Start), events + [Start], b)
  {
    OwnNext(events, Start, b);
    assert Own(events + [Start], b) == Own(events, b);
    assert Wrap(TotalRows([])) == 0;
  }

  lemma QueryTracks(s: System, events: seq<Event>, e: Event, b: nat)
    requires Tracks(s, events, b) && e.Query? && e.batch == b < |s.batches|
    ensures Tracks(Step(s, e), events + [e], b)
  {
    var own := Own(events, b);
    assert Own(events + [e], b) == own + [e] && Starts(events + [e]) == Starts(events) by { OwnNext(events, e, b); }
    ResultIsNoReport(own, e, b);
    ResultIsKept(own, e);
  }

  /** What the callbacks keep of a batch with these events. */
  function Kept(own: seq<Event>): Batch {
    var before := UntilEnd(own);
    Batch(Wrap(TotalRows(before)), FirstError(before), |before| < |own|)
  }

  lemma ResultIsNoReport(own: seq<Event>, e: Event, b: nat)
    requires e.Query?
    ensures Expected(own + [e], b) == Expected(own, b)
  {
    UntilEndNext(own, e);
  }

  lemma ResultIsKept(own: seq<Event>, e: Event)
    requires e.Query?
    ensures Kept(own + [e]) == QueryStep(Kept(own), e.rows, e.err)
  {
    var before := UntilEnd(own);
    UntilEndNext(own, e);
    if |before| == |own| {
      assert before == own && (own + [e])[..|own|] == own;
      WrapOfSum(TotalRows(own), e.rows);
    }
  }

  lemma EndTracks(s: System, events: seq<Event>, e: Event, b: nat)
    requires Tracks(s, events, b) && e.End? && e.batch == b < |s.batches|
    ensures Tracks(Step(s, e), events + [e], b)
  {
    var own := Own(events, b);
    var report := EndMetric(b, s.batches[b], e.err);
    assert Own(events + [e], b) == own + [e] by { OwnNext(events, e, b); }
    assert UntilEnd(own + [e]) == UntilEnd(own) by { UntilEndNext(own, e); }
    assert Expected(own + [e], b) == Expected(own, b) + report by { ReportAtEnd(own, e, b); }
    assert MetricsOf(s.emitted + report, b) == MetricsOf(s.emitted, b) + report by {
      MetricsOfNext(s.emitted, report, b);
    }
    OwnNext(events, e, b);
  }

  /** The first end makes the report; later ones add nothing. */
  lemma ReportAtEnd(own: seq<Event>, e: Event, b: nat)
    requires e.End?
    ensures Expected(own + [e], b) == Expected(own, b) + EndMetric(b, Kept(own), e.err)
  {
    UntilEndNext(own, e);
  }

  lemma {:induction false} EveryRunTracks(events: seq<Event>, b: nat)
    ensures Tracks(Run(events), events, b)
  {
    if events == [] {
    } else {
      var front, e := events[..|events| - 1], events[|events| - 1];
      EveryRunTracks(front, b);
      var s := Run(front);
      assert front + [e] == events;
      if e.Start? {
        StartLeaves(s, front, b);
      } else if e.batch != b || b >= |s.batches| {
        OtherEventsLeave(s, front, e, b);
      } else if e.Query? {
        QueryTracks(s, front, e, b);
      } else {
        EndTracks(s, front, e, b);
      }
    }
  }

  /** Over any interleaving of any number of batches, each batch reports what its own events say,
      and at most once. */
  lemma EachBatchReportsItsOwn(events: seq<Event>, b: nat)
    ensures MetricsOf(Run(events).emitted, b) == Expected(Own(events, b), b)
    ensures |MetricsOf(Run(events).emitted, b)| <= 1
  {
    EveryRunTracks(events, b);
  }

  /** A report's rows are the sum of the batch's own results before its end, if that fits an int64,
      and else what int64 addition leaves of it. */
  lemma ReportCountsItsRows(events: seq<Event>, b: nat)
    requires MetricsOf(Run(events).emitted, b) != []
    ensures
      var own := Own(events, b);
      var sum, rows := TotalRows(UntilEnd(own)), MetricsOf(Run(events).emitted, b)[0].rows;
      && -0x8000_0000_0000_0000 <= rows <= 0x7FFF_FFFF_FFFF_FFFF
      && (rows - sum) % 0x1_0000_0000_0000_0000 == 0
      && (-0x8000_0000_0000_0000 <= sum <= 0x7FFF_FFFF_FFFF_FFFF ==> rows == sum)
  {
    EachBatchReportsItsOwn(events, b);
    WrapFits(TotalRows(UntilEnd(Own(events, b))));
  }

  /** Once a batch has reported, nothing that comes later changes or repeats its report. */
  lemma {:induction false} ReportsAreFinal(events: seq<Event>, later: seq<Event>, b: nat)
    requires MetricsOf(Run(events).emitted, b) != []
    ensures MetricsOf(Run(events + later).emitted, b) == MetricsOf(Run(events).emitted, b)
  {
    if later == [] {
      assert events + later == events;
    } else {
      var n := |later| - 1;
      ReportsAreFinal(events, later[..n], b);
      assert events + later == (events + later[..n]) + [later[n]];
      NextLeavesReport(events + later[..n], later[n], b);
    }
  }

  lemma NextLeavesReport(events: seq<Event>, e: Event, b: nat)
    requires MetricsOf(Run(events).emitted, b) != []
    ensures MetricsOf(Run(events + [e]).emitted, b) == MetricsOf(Run(events).emitted, b)
  {
    EachBatchReportsItsOwn(events, b);
    EachBatchReportsItsOwn(events + [e], b);
    OwnNext(events, e, b);
    var own := Own(events, b);
    if Own(events + [e], b) != own { ReportedStays(own, e, b); }
  }

  lemma ReportedStays(own: seq<Event>, e: Event, b: nat)
    requires Expected(own, b) != []
    ensures Expected(own + [e], b) == Expected(own, b)
  {
    UntilEndNext(own, e);
  }

  // ---- The callbacks, called ----------------------------------------------------------------

  /** The batches in the contexts stand as the system's batches do. */
  ghost predicate Mirrors(starts: seq<BatchStart>, s: System)
    reads starts
  {
    && |starts| == |s.batches|
    && (forall b :: 0 <= b < |starts| ==> starts[b].id == b && starts[b].State() == s.batches[b])
    && forall a, b :: 0 <= a < b < |starts| ==> starts[a] != starts[b]
  }

  lemma RunNext(events: seq<Event>, n: nat)
    requires n < |events|
    ensures Run(events[..n + 1]) == Step(Run(events[..n]), events[n])
  {
    assert events[..n + 1][..n] == events[..n];
  }

  /** The batch an event finds in its context, if it has one. */
  function InContext(starts: seq<BatchStart>, batch: nat): (start: BatchStart?)
    ensures start != null ==> start in starts
  {
    if batch < |starts| then starts[batch] else null
  }

  /** The driver calls the tracer back, event by event, in whatever order the events come. */
  method Drive(events: seq<Event>) returns (tracer: Tracer)
    ensures tracer.emitted == Run(events).emitted
    ensures forall b :: MetricsOf(tracer.emitted, b) == Expected(Own(events, b), b)
    ensures forall b :: |MetricsOf(tracer.emitted, b)| <= 1
  {
    tracer := CallBackAll(events);
    forall b
      ensures MetricsOf(tracer.emitted, b) == Expected(Own(events, b), b)
      ensures |MetricsOf(tracer.emitted, b)| <= 1
    {
      EachBatchReportsItsOwn(events, b);
    }
  }

  /** One event, called back on the batch in its context. */
  method CallBack(tracer: Tracer, starts: seq<BatchStart>, e: Event, ghost s: System) returns (next: seq<BatchStart>)
    requires Mirrors(starts, s) && tracer.emitted == s.emitted
    modifies tracer, starts
    ensures Mirrors(next, Step(s, e)) && tracer.emitted == Step(s, e).emitted
    ensures starts <= next && forall i :: |starts| <= i < |next| ==> fresh(next[i])
  {
    next := starts;
    match e
    case Start =>
      var start := tracer.TraceBatchStart(|starts|);
      next := starts + [start];
    case Query(batch, rows, err) =>
      tracer.TraceBatchQuery(InContext(starts, batch), rows, err);
    case End(batch, err) =>
      tracer.TraceBatchEnd(InContext(starts, batch), err);
  }

  method CallBackAll(events: seq<Event>) returns (tracer: Tracer)
    ensures tracer.emitted == Run(events).emitted
  {
    tracer := new Tracer();
    var starts: seq<BatchStart> := [];
    for n := 0 to |events|
      invariant fresh(tracer) && forall i :: 0 <= i < |starts| ==> fresh(starts[i])
      invariant tracer.emitted == Run(events[..n]).emitted
      invariant Mirrors(starts, Run(events[..n]))
    {
      RunNext(events, n);
      starts := CallBack(tracer, starts, events[n], Run(events[..n]));
    }
    assert events[..|events|] == events;
  }
}
