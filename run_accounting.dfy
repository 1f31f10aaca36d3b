/** How each entry point counts finished sites and decides what to do at
    the end of a run: finalise the report, mail it, and stop the VM. The
    process pools, queues and timers are left out; what reaches the main
    process is given as a sequence of results. */
module RunAccounting {
  import opened Text

  // ---------------------------------------------------------------------
  // The self-managed worker pool.

  /** What the main loop of the self-managed pool gets from its result
      queue: a message, or a ten-minute wait without one. */
  datatype QueueEvent =
    | Restart                 // a worker asks to be replaced
    | Failed                  // a worker reports a failed site
    | SiteStats(written: bool) // a site's statistics; whether the Excel write went through
    | Silence(allDead: bool)  // the wait timed out; whether every worker had died

  /** The main loop's counters. */
  datatype Tally = Tally(successful: nat, failed: nat, processed: nat, crawlSuccess: bool)

  const Start := Tally(0, 0, 0, true)

  /** The counters after one event. */
  function Step(t: Tally, e: QueueEvent): (r: Tally)
    ensures e.Restart? || e.Silence? ==> r.processed == t.processed
    ensures e.Failed? || e.SiteStats? ==> r.processed == t.processed + 1
  {
    match e
    case Restart => t
    case Failed => t.(failed := t.failed + 1, processed := t.processed + 1)
    case SiteStats(written) =>
      if written then t.(successful := t.successful + 1, processed := t.processed + 1)
      else t.(failed := t.failed + 1, processed := t.processed + 1)
    case Silence(allDead) => if allDead then t.(crawlSuccess := false) else t
  }

  /** The counters after a sequence of events. */
  function TallyOf(events: seq<QueueEvent>): Tally {
    if events == [] then Start else Step(TallyOf(events[..|events| - 1]), events[|events| - 1])
  }

  function Finishes(): QueueEvent -> bool {
    (e: QueueEvent) => e.Failed? || e.SiteStats?
  }

  function Succeeds(): QueueEvent -> bool {
    (e: QueueEvent) => e.SiteStats? && e.written
  }

  /** Every failed report and every set of statistics counts once, as a
      success exactly when its Excel write went through; restarts and
      waits count nothing, and the run stays successful until a wait
      finds every worker dead. */
  lemma {:induction false} TallyCounts(events: seq<QueueEvent>)
    ensures TallyOf(events).processed == |Filter(events, Finishes())|
    ensures TallyOf(events).successful == |Filter(events, Succeeds())|
    ensures TallyOf(events).successful + TallyOf(events).failed == TallyOf(events).processed
    ensures TallyOf(events).crawlSuccess <==> Silence(true) !in events
  {
    if events != [] {
      var init := events[..|events| - 1];
      TallyCounts(init);
      assert events == init + [events[|events| - 1]];
      FilterSnoc(init, events[|events| - 1], Finishes());
      FilterSnoc(init, events[|events| - 1], Succeeds());
    }
  }

  /** The main loop of the self-managed pool: it runs until `total` sites
      are processed or a wait finds every worker dead, and here also
      stops when the given events run out. */
  method SelfQueueLoop(events: seq<QueueEvent>, total: nat) returns (t: Tally, consumed: nat)
    ensures consumed <= |events| && t == TallyOf(events[..consumed])
    ensures t.processed <= total
    ensures t.processed == total || !t.crawlSuccess || consumed == |events|
    ensures forall k :: 0 <= k < consumed ==>
              TallyOf(events[..k]).processed < total && TallyOf(events[..k]).crawlSuccess
  {
    t := Start;
    consumed := 0;
    TallyCounts([]);
    while t.processed < total && consumed < |events|
      invariant consumed <= |events| && t == TallyOf(events[..consumed])
      invariant t.processed <= total
      invariant t.crawlSuccess || t.processed == total
      invariant forall k :: 0 <= k < consumed ==>
                  TallyOf(events[..k]).processed < total && TallyOf(events[..k]).crawlSuccess
      decreases |events| - consumed
    {
      var e := events[consumed];
      assert events[..consumed + 1] == events[..consumed] + [e];
      consumed := consumed + 1;
      match e {
        case Restart =>
        case Failed =>
          t := t.(failed := t.failed + 1, processed := t.processed + 1);
        case SiteStats(written) =>
          if written {
            t := t.(successful := t.successful + 1);
          } else {
            t := t.(failed := t.failed + 1);
          }
          t := t.(processed := t.processed + 1);
        case Silence(allDead) =>
          if allDead {
            t := t.(crawlSuccess := false);
            break;
          }
      }
    }
  }

  // ---------------------------------------------------------------------
  // The multiprocessing.Pool entry points.

  /** One pool result: nothing (the worker failed) or a statistics
      dictionary, with whether its Excel write went through. */
  datatype PoolResult = NoStats | Stats(written: bool)

  function PoolSucceeds(): PoolResult -> bool {
    (r: PoolResult) => r.Stats? && r.written
  }

  /** The result loop of the pool entry points: a missing result or a
      failed Excel write is a failure, anything else a success. */
  method CountPoolResults(results: seq<PoolResult>) returns (successful: nat, failed: nat)
    ensures successful == |Filter(results, PoolSucceeds())|
    ensures successful + failed == |results|
  {
    successful, failed := 0, 0;
    for i := 0 to |results|
      invariant successful == |Filter(results[..i], PoolSucceeds())|
      invariant successful + failed == i
    {
      assert results[..i + 1] == results[..i] + [results[i]];
      FilterSnoc(results[..i], results[i], PoolSucceeds());
      var r := results[i];
      if r.Stats? {
        if r.written {
          successful := successful + 1;
        } else {
          failed := failed + 1;
        }
      } else {
        failed := failed + 1;
      }
    }
    assert results[..|results|] == results;
  }

  // ---------------------------------------------------------------------
  // The asyncio entry point.

  /** What `asyncio.gather(..., return_exceptions=True)` hands back for one
      site: the coroutine's return value, or an exception. */
  datatype Outcome = Returned(value: bool) | Raised

  function IsTrue(): Outcome -> bool {
    (o: Outcome) => o == Returned(true)
  }

  /** `successful = sum(1 for r in results if r is True)` and
      `failed = len(tasks) - successful`. */
  function GatherCounts(results: seq<Outcome>): (counts: (nat, nat))
    ensures counts.0 + counts.1 == |results|
  {
    var successful := |Filter(results, IsTrue())|;
    (successful, |results| - successful)
  }

  function NotTrue(): Outcome -> bool {
    (o: Outcome) => o != Returned(true)
  }

  /** The failures are exactly the results other than a returned `True`:
      returned `False` and raised exceptions alike. */
  lemma GatherFailures(results: seq<Outcome>, o: Outcome)
    ensures GatherCounts(results).1 == |Filter(results, NotTrue())|
    ensures o in Filter(results, NotTrue()) <==> o in results && o != Returned(true)
  {
    FilterComplement(results, IsTrue(), NotTrue());
    FilterMembers(results, NotTrue(), o);
  }

  // ---------------------------------------------------------------------
  // The end of a run.

  datatype EntryPoint =
    | SelfQueue     // hand-managed worker processes and queues
    | PoolFast      // multiprocessing.Pool, one task per child
    | PoolStandard  // multiprocessing.Pool with memory checks
    | AsyncGather   // asyncio tasks in one process

  /** What the end of a run does with the report and the VM. */
  datatype Ending = Ending(finalized: bool, emailed: bool, shutDown: bool)

  /** The end of a run: with no site left to crawl every entry point
      finalises the report and stops the VM (the two mailing ones mail it
      first); otherwise the report is finalised in every case, and the
      VM is stopped exactly after a successful run, which for the
      self-managed pool also means every site was processed. Only the
      self-managed and fast pools mail the report, and they mail it
      exactly when they stop the VM. */
  function Finish(entry: EntryPoint, noneLeft: bool, crawlSuccess: bool, complete: bool): (r: Ending)
    ensures r.finalized
    ensures r.shutDown <==> noneLeft || (crawlSuccess && (entry == SelfQueue ==> complete))
    ensures r.emailed <==> r.shutDown && (entry == SelfQueue || entry == PoolFast)
  {
    var mails := entry == SelfQueue || entry == PoolFast;
    if noneLeft then Ending(true, mails, true)
    else
      var done := crawlSuccess && (entry == SelfQueue ==> complete);
      Ending(true, mails && done, done)
  }

  /** The self-managed pool stops the VM after its main loop only when
      every task was processed and no wait found all workers dead. */
  lemma SelfQueueShutdown(events: seq<QueueEvent>, total: nat)
    requires total > 0
    ensures var t := TallyOf(events);
            Finish(SelfQueue, false, t.crawlSuccess, t.processed == total).shutDown
            <==> Silence(true) !in events && |Filter(events, Finishes())| == total
  {
    TallyCounts(events);
  }
}
