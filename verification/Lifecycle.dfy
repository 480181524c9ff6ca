/** The subagent lifecycle manager (internal/infrastructure/subagent/lifecycle.go).

    Start, Cancel and the background goroutine's publication are atomic steps under the manager's and
    the entry's locks; a run is any interleaving of them. Entries are never removed. */
module Lifecycle {
  import opened Text
  import opened Subagent

  /** What the executor returns: a result, or an error. */
  datatype Returned = Done(result: Result) | Failed(error: string)

  function Published(id: string, r: Returned): Result {
    match r
    case Done(result) => result
    case Failed(error) => Result(id, Error, "", error, 0, 0, [])
  }

  function InitialResult(id: string): Result {
    Result(id, Running, "", "", 0, 0, [])
  }

  function CancelledResult(r: Result): Result {
    if r.status == Running then r.(status := Cancelled, errorMessage := "cancelled by user") else r
  }

  /** `published` says that the goroutine started for this entry has stored its result. */
  datatype Entry = Entry(result: Result, published: bool)

  type Entries = map<string, Entry>

  datatype Event = Start(ctx: Context) | Cancel(id: string) | Publish(id: string, returned: Returned)

  datatype Answer = Ok | InvalidContext | AlreadyRunning | NotFound

  /** Start and Cancel always answer; a publication needs an entry whose goroutine is still running. */
  function Step(m: Entries, e: Event): Option<(Entries, Answer)> {
    match e
    case Start(ctx) =>
      if !ctx.IsValid() then Some((m, InvalidContext))
      else if ctx.id in m then Some((m, AlreadyRunning))
      else Some((m[ctx.id := Entry(InitialResult(ctx.id), false)], Ok))
    case Cancel(id) =>
      if id !in m then Some((m, NotFound))
      else Some((m[id := m[id].(result := CancelledResult(m[id].result))], Ok))
    case Publish(id, r) =>
      if id in m && !m[id].published then Some((m[id := Entry(Published(id, r), true)], Ok)) else None
  }

  function Run(m: Entries, es: seq<Event>): Option<Entries>
    decreases |es|
  {
    if es == [] then Some(m)
    else match Step(m, es[0])
      case None => None
      case Some((m', _)) => Run(m', es[1..])
  }

  // ---------- the object ----------

  class RunningSubagent {
    var result: Result
    ghost var published: bool

    constructor (id: string)
      ensures result == InitialResult(id) && !published
    {
      result := InitialResult(id);
      published := false;
    }
  }

  class LifecycleManager {
    var running: map<string, RunningSubagent>

    ghost predicate Valid()
      reads this, running.Values
    {
      forall i, j :: i in running && j in running && i != j ==> running[i] != running[j]
    }

    ghost function View(): Entries
      reads this, running.Values
    {
      map id | id in running :: Entry(running[id].result, running[id].published)
    }

    constructor ()
      ensures Valid() && running == map[]
    {
      running := map[];
    }

    method StartSubagent(ctx: Context) returns (answer: Answer)
      requires Valid()
      modifies this
      ensures Valid() && fresh(running.Values - old(running.Values))
      ensures Some((View(), answer)) == Step(old(View()), Start(ctx))
      ensures answer == InvalidContext
         <==> || ctx.id == "" || ctx.parentContextID == "" || ctx.skillName == "" || ctx.limits.timeout <= 0
              || ctx.limits.maxTokens < 0 || ctx.limits.maxToolCalls < 0
      ensures answer == AlreadyRunning <==> answer != InvalidContext && ctx.id in old(running)
    {
      if !ctx.IsValid() {
        return InvalidContext;
      }
      if ctx.id in running {
        return AlreadyRunning;
      }
      ghost var before := View();
      var entry := new RunningSubagent(ctx.id);
      running := running[ctx.id := entry];
      assert View() == before[ctx.id := Entry(entry.result, entry.published)];
      return Ok;
    }

    /** The goroutine's store of the executor's result. */
    method PublishResult(id: string, returned: Returned)
      requires Valid() && id in running && !running[id].published
      modifies running[id]
      ensures Valid() && running == old(running)
      ensures Some((View(), Ok)) == Step(old(View()), Publish(id, returned))
    {
      var entry := running[id];
      match returned {
        case Failed(error) => entry.result := Result(id, Error, "", error, 0, 0, []);
        case Done(result) => entry.result := result;
      }
      entry.published := true;
      assert forall i :: i in running && i != id ==> running[i] != entry;
      assert View() == old(View())[id := Entry(entry.result, true)];
    }

    method CancelSubagent(id: string) returns (answer: Answer)
      requires Valid()
      modifies running.Values
      ensures Valid() && running == old(running)
      ensures Some((View(), answer)) == Step(old(View()), Cancel(id))
    {
      if id !in running {
        return NotFound;
      }
      var entry := running[id];
      if entry.result.status == Running {
        entry.result := entry.result.(status := Cancelled, errorMessage := "cancelled by user");
      }
      assert forall i :: i in running && i != id ==> running[i] != entry;
      assert View() == old(View())[id := Entry(entry.result, entry.published)];
      return Ok;
    }

    method GetStatus(id: string) returns (r: Option<Result>)
      requires Valid()
      ensures r == if id in View() then Some(View()[id].result) else None
    {
      if id !in running {
        return None;
      }
      return Some(running[id].result);
    }

    method ListRunning() returns (ids: seq<string>)
      requires Valid()
      ensures forall id :: id in ids <==> id in View() && View()[id].result.status == Running
      ensures forall i, j :: 0 <= i < j < |ids| ==> ids[i] != ids[j]
    {
      ids := [];
      var rest := running.Keys;
      while rest != {}
        invariant rest <= running.Keys
        invariant forall id :: id in ids <==> id in running && id !in rest && running[id].result.status == Running
        invariant forall i, j :: 0 <= i < j < |ids| ==> ids[i] != ids[j]
        decreases rest
      {
        var id :| id in rest;
        if running[id].result.status == Running {
          ids := ids + [id];
        }
        rest := rest - {id};
      }
    }

    /** The first part of Shutdown: every subagent known at that moment is cancelled. */
    method CancelAll() returns (ids: seq<string>)
      requires Valid()
      modifies running.Values
      ensures Valid() && running == old(running)
      ensures forall id :: id in ids <==> id in running
      ensures Run(old(View()), Cancels(ids)) == Some(View())
    {
      ids := [];
      var rest := running.Keys;
      assert Run(View(), Cancels([])) == Some(View());
      while rest != {}
        invariant rest <= running.Keys && running == old(running) && Valid()
        invariant forall id :: id in ids <==> id in running && id !in rest
        invariant Run(old(View()), Cancels(ids)) == Some(View())
        decreases rest
      {
        var id :| id in rest;
        CancelsSnoc(old(View()), ids, View(), id);
        var answer := CancelSubagent(id);
        ids := ids + [id];
        rest := rest - {id};
      }
    }
  }

  function Cancels(ids: seq<string>): seq<Event> {
    if ids == [] then [] else Cancels(ids[..|ids| - 1]) + [Cancel(ids[|ids| - 1])]
  }

  lemma CancelsSnoc(m: Entries, ids: seq<string>, m': Entries, id: string)
    requires Run(m, Cancels(ids)) == Some(m')
    ensures Run(m, Cancels(ids + [id])) == Some(Step(m', Cancel(id)).value.0)
  {
    assert (ids + [id])[..|ids|] == ids;
    RunConcat(m, Cancels(ids), [Cancel(id)]);
    assert [Cancel(id)][1..] == [];
    assert Run(m', [Cancel(id)]) == Some(Step(m', Cancel(id)).value.0);
  }

  lemma {:induction false} RunConcat(m: Entries, es: seq<Event>, fs: seq<Event>)
    requires Run(m, es).Some?
    ensures Run(m, es + fs) == Run(Run(m, es).value, fs)
    decreases |es|
  {
    if es == [] {
      assert es + fs == fs;
    } else {
      assert (es + fs)[1..] == es[1..] + fs;
      RunConcat(Step(m, es[0]).value.0, es[1..], fs);
    }
  }

  // ---------- the protocol over whole runs ----------

  /** Executors return terminal results, as SubagentExecutor.Execute does. */
  ghost predicate Terminal(es: seq<Event>) {
    forall i :: 0 <= i < |es| && es[i].Publish? && es[i].returned.Done? ==> es[i].returned.result.status.IsTerminal()
  }

  ghost predicate Inv(m: Entries) {
    forall id :: id in m ==>
      if m[id].published then m[id].result.status.IsTerminal()
      else m[id].result.status == Running || m[id].result.status == Cancelled
  }

  /** What one or more steps may do to an entry. */
  ghost predicate Advances(a: Entry, b: Entry) {
    && (a.result.status != Running ==> b.result.status != Running)
    && (a.published ==> b == a)
  }

  lemma StepAdvances(m: Entries, e: Event)
    requires Inv(m) && Terminal([e]) && Step(m, e).Some?
    ensures var m' := Step(m, e).value.0;
            Inv(m') && forall id :: id in m ==> id in m' && Advances(m[id], m'[id])
  {
    assert [e][0] == e;
  }

  lemma TerminalParts(es: seq<Event>)
    requires Terminal(es) && es != []
    ensures Terminal([es[0]]) && Terminal(es[1..])
  {
    assert forall i :: 0 <= i < |es[1..]| ==> es[1..][i] == es[i + 1];
  }

  /** In every interleaving: before its goroutine publishes, a subagent is running or cancelled; it
      never returns to running; and what is published never changes. */
  lemma {:induction false} RunAdvances(m: Entries, es: seq<Event>)
    requires Inv(m) && Terminal(es) && Run(m, es).Some?
    ensures Inv(Run(m, es).value)
    ensures forall id :: id in m ==> id in Run(m, es).value && Advances(m[id], Run(m, es).value[id])
    decreases |es|
  {
    if es != [] {
      TerminalParts(es);
      StepAdvances(m, es[0]);
      RunAdvances(Step(m, es[0]).value.0, es[1..]);
    }
  }

  /** How many executions a run starts for one id: each successful Start spawns one. */
  function Executions(m: Entries, es: seq<Event>, id: string): nat
    requires Run(m, es).Some?
    decreases |es|
  {
    if es == [] then 0
    else
      (if es[0].Start? && es[0].ctx.id == id && Step(m, es[0]).value.1 == Ok then 1 else 0)
      + Executions(Step(m, es[0]).value.0, es[1..], id)
  }

  /** Each id is executed at most once ever, and once exactly if the manager knows it. */
  lemma {:induction false} ExecutedOnce(m: Entries, es: seq<Event>, id: string)
    requires Run(m, es).Some?
    ensures Executions(m, es, id) == if id in Run(m, es).value && id !in m then 1 else 0
    ensures id in m ==> id in Run(m, es).value
    decreases |es|
  {
    if es != [] {
      ExecutedOnce(Step(m, es[0]).value.0, es[1..], id);
    }
  }

  /** Publications of one id in a run. */
  function Publications(es: seq<Event>, id: string): seq<Returned> {
    if es == [] then []
    else (if es[0].Publish? && es[0].id == id then [es[0].returned] else []) + Publications(es[1..], id)
  }

  /** An entry ends with what its goroutine returned, however often it was cancelled: a cancelled
      status is overwritten by the later result. */
  lemma {:induction false} PublishedResultWins(m: Entries, es: seq<Event>, id: string)
    requires Inv(m) && Terminal(es) && Run(m, es).Some?
    requires id in m ==> !m[id].published
    ensures var ps := Publications(es, id); var m' := Run(m, es).value;
            && |ps| <= 1
            && (|ps| == 1 ==> id in m' && m'[id] == Entry(Published(id, ps[0]), true))
            && (ps == [] && id in m' ==> !m'[id].published)
    decreases |es|
  {
    if es != [] {
      TerminalParts(es);
      StepAdvances(m, es[0]);
      var m' := Step(m, es[0]).value.0;
      if es[0].Publish? && es[0].id == id {
        PublishedIsFinal(m', es[1..], id);
      } else {
        PublishedResultWins(m', es[1..], id);
      }
    }
  }

  lemma {:induction false} PublishedIsFinal(m: Entries, es: seq<Event>, id: string)
    requires Inv(m) && Terminal(es) && Run(m, es).Some? && id in m && m[id].published
    ensures Publications(es, id) == [] && id in Run(m, es).value && Run(m, es).value[id] == m[id]
    decreases |es|
  {
    if es != [] {
      TerminalParts(es);
      StepAdvances(m, es[0]);
      PublishedIsFinal(Step(m, es[0]).value.0, es[1..], id);
    }
  }

  // ---------- what is shown ----------

  predicate StartsIt(e: Event, id: string) {
    e.Start? && e.ctx.IsValid() && e.ctx.id == id
  }

  /** A valid Start of the id, the first of which succeeds. */
  ghost predicate Started(es: seq<Event>, id: string) {
    exists i :: 0 <= i < |es| && StartsIt(es[i], id)
  }

  /** A Cancel of the id after such a Start. */
  ghost predicate CancelledLater(es: seq<Event>, id: string) {
    exists i, j :: 0 <= i < j < |es| && StartsIt(es[i], id) && es[j] == Cancel(id)
  }

  lemma StartedStep(es: seq<Event>, id: string)
    requires es != []
    ensures Started(es, id) <==> StartsIt(es[0], id) || Started(es[1..], id)
    ensures CancelledLater(es, id) <==> (StartsIt(es[0], id) && Cancel(id) in es[1..]) || CancelledLater(es[1..], id)
  {
    hide StartsIt;
    var rest := es[1..];
    assert forall i :: 0 <= i < |rest| ==> rest[i] == es[i + 1];
    if Started(es, id) {
      var i :| 0 <= i < |es| && StartsIt(es[i], id);
      assert i > 0 ==> StartsIt(rest[i - 1], id);
    }
    if CancelledLater(es, id) {
      var i, j :| 0 <= i < j < |es| && StartsIt(es[i], id) && es[j] == Cancel(id);
      assert rest[j - 1] == Cancel(id);
      assert i > 0 ==> StartsIt(rest[i - 1], id);
    }
    if StartsIt(es[0], id) && Cancel(id) in rest {
      var j :| 0 <= j < |rest| && rest[j] == Cancel(id);
      assert es[j + 1] == Cancel(id);
    }
    if CancelledLater(rest, id) {
      var i, j :| 0 <= i < j < |rest| && StartsIt(rest[i], id) && rest[j] == Cancel(id);
      assert StartsIt(es[i + 1], id) && es[j + 1] == Cancel(id);
    }
  }

  predicate IsShown(r: Result, cancelled: bool) {
    if cancelled then r.status == Cancelled && r.errorMessage == "cancelled by user" else r.status == Running
  }

  /** The same from any moment on: a known subagent that is not published becomes cancelled by a Cancel, and
      one that is not yet known by a Cancel after its Start. */
  lemma {:induction false} ShownFrom(m: Entries, es: seq<Event>, id: string)
    requires Run(m, es).Some?
    requires id in m && !m[id].published ==> IsShown(m[id].result, m[id].result.status == Cancelled)
    ensures var m' := Run(m, es).value;
            && (id in m' <==> id in m || Started(es, id))
            && (id in m' && !m'[id].published ==>
                  var cancelled := if id in m then m[id].result.status == Cancelled || Cancel(id) in es
                                   else CancelledLater(es, id);
                  IsShown(m'[id].result, cancelled))
    ensures id in m && m[id].published ==> id in Run(m, es).value && Run(m, es).value[id].published
    decreases |es|
  {
    if es != [] {
      StartedStep(es, id);
      var m' := Step(m, es[0]).value.0;
      ShownFrom(m', es[1..], id);
      assert Cancel(id) in es <==> es[0] == Cancel(id) || Cancel(id) in es[1..];
    }
  }

  /** In every run from the start: the manager knows exactly the ids that were validly started; and until its
      goroutine publishes, a subagent is shown as cancelled if it was cancelled after its Start, and as running
      otherwise. */
  lemma ShownStatus(es: seq<Event>, id: string)
    requires Run(map[], es).Some?
    ensures var m := Run(map[], es).value;
            && (id in m <==> Started(es, id))
            && (id in m && !m[id].published ==>
                  IsShown(m[id].result, CancelledLater(es, id)))
  {
    ShownFrom(map[], es, id);
  }

  /** So what is listed as running is exactly what was started and neither cancelled since nor published. */
  lemma ListedIff(es: seq<Event>, id: string)
    requires Run(map[], es).Some? && Terminal(es)
    ensures var m := Run(map[], es).value;
            id in m && m[id].result.status == Running
            <==> Started(es, id) && !CancelledLater(es, id) && Publications(es, id) == []
  {
    ShownStatus(es, id);
    RunAdvances(map[], es);
    PublishedResultWins(map[], es, id);
  }

  /** Once published, the result is what the executor returned; its error is shown as an error with that message. */
  lemma ShownResult(es: seq<Event>, id: string)
    requires Run(map[], es).Some? && Terminal(es) && Publications(es, id) != []
    ensures var m, r := Run(map[], es).value, Publications(es, id)[0];
            && id in m
            && (r.Done? ==> m[id].result == r.result)
            && (r.Failed? ==>
                  m[id].result.status == Error && m[id].result.errorMessage == r.error && m[id].result.subagentID == id)
  {
    PublishedResultWins(map[], es, id);
  }

  // ---------- Shutdown ----------

  lemma {:induction false} CancelsStop(m: Entries, ids: seq<string>)
    requires Inv(m) && forall id :: id in ids ==> id in m
    ensures Run(m, Cancels(ids)).Some?
    ensures var m' := Run(m, Cancels(ids)).value;
            && Inv(m') && m'.Keys == m.Keys
            && (forall id :: id in ids ==> m'[id].result.status != Running)
            && (forall id :: id in m ==> m'[id].published == m[id].published)
            && (forall id :: id in m && m[id].result.status != Running ==> m'[id].result.status != Running)
  {
    if ids != [] {
      var init, last := ids[..|ids| - 1], ids[|ids| - 1];
      assert forall id :: id in ids ==> id in init || id == last;
      CancelsStop(m, init);
      CancelsSnoc(m, init, Run(m, Cancels(init)).value, last);
      assert init + [last] == ids;
    }
  }

  /** The cancels of Shutdown: every id of its snapshot is cancelled, with anything from other goroutines
      in between. */
  ghost predicate CancelsAllOf(m: Entries, during: seq<Event>) {
    forall id :: id in m ==> Cancel(id) in during
  }

  ghost predicate NoStart(es: seq<Event>) {
    forall i :: 0 <= i < |es| ==> !es[i].Start?
  }

  lemma {:induction false} CancelledStops(m: Entries, es: seq<Event>, id: string)
    requires Inv(m) && Terminal(es) && Run(m, es).Some? && id in m && Cancel(id) in es
    ensures id in Run(m, es).value && Run(m, es).value[id].result.status != Running
    decreases |es|
  {
    TerminalParts(es);
    StepAdvances(m, es[0]);
    var m' := Step(m, es[0]).value.0;
    if es[0] == Cancel(id) {
      RunAdvances(m', es[1..]);
    } else {
      CancelledStops(m', es[1..], id);
    }
  }

  /** Once Shutdown has cancelled all of its snapshot, whatever else happens meanwhile and later, nothing in
      the snapshot is ever listed as running again; so without a new Start nothing is. */
  lemma ShutdownStops(m: Entries, during: seq<Event>)
    requires Inv(m) && Terminal(during) && Run(m, during).Some? && CancelsAllOf(m, during)
    ensures var m' := Run(m, during).value;
            && (forall id :: id in m ==> id in m' && m'[id].result.status != Running)
            && (NoStart(during) ==> NoneRunning(m'))
  {
    forall id | id in m ensures id in Run(m, during).value && Run(m, during).value[id].result.status != Running {
      CancelledStops(m, during, id);
    }
    if NoStart(during) {
      NoStartNoEntry(m, during);
    }
  }

  lemma {:induction false} NoStartNoEntry(m: Entries, es: seq<Event>)
    requires Run(m, es).Some? && NoStart(es)
    ensures Run(m, es).value.Keys == m.Keys
    decreases |es|
  {
    if es != [] {
      assert forall i :: 0 <= i < |es[1..]| ==> es[1..][i] == es[i + 1];
      NoStartNoEntry(Step(m, es[0]).value.0, es[1..]);
    }
  }

  /** Shutdown says it waits for all to finish, but with no Start in between it stops waiting while the
      very goroutines that were running before it are still running. */
  lemma ShutdownDoesNotWait(m: Entries, ids: seq<string>)
    requires Inv(m) && (forall id :: id in ids <==> id in m)
    ensures Run(m, Cancels(ids)).Some?
    ensures var c := Run(m, Cancels(ids)).value;
            c.Keys == m.Keys && forall id :: id in c ==>
                c[id].result.status != Running && c[id].published == m[id].published
  {
    CancelsStop(m, ids);
  }

  // ---------- the wait of Shutdown ----------

  /** What wakes Shutdown's loop: the caller's context is done, or the ticker ticks at `now`, after the
      given events of other goroutines. */
  datatype Wake = ContextEnded | Tick(meanwhile: seq<Event>, now: int)

  datatype End = AllStopped | ContextError | TimedOut

  predicate NoneRunning(m: Entries) {
    forall id :: id in m ==> m[id].result.status != Running
  }

  /** The polling loop after the cancels; None while it still waits. */
  function ShutdownWait(m: Entries, wakes: seq<Wake>, deadline: int): Option<End>
    decreases |wakes|
  {
    if wakes == [] then None
    else match wakes[0]
      case ContextEnded => Some(ContextError)
      case Tick(es, now) =>
        match Run(m, es)
        case None => None
        case Some(m') =>
          if NoneRunning(m') then Some(AllStopped)
          else if now > deadline then Some(TimedOut)
          else ShutdownWait(m', wakes[1..], deadline)
  }

  /** Without a new Start the first wake ends the wait: with success if it is a tick, whatever goroutines
      are still running, and with the context's error otherwise; it never times out. */
  lemma ShutdownEnds(m: Entries, during: seq<Event>, wakes: seq<Wake>, deadline: int)
    requires Inv(m) && Terminal(during) && Run(m, during).Some? && CancelsAllOf(m, during) && wakes != []
    requires wakes[0].Tick? ==>
               && NoStart(during) && NoStart(wakes[0].meanwhile)
               && Terminal(wakes[0].meanwhile) && Run(Run(m, during).value, wakes[0].meanwhile).Some?
    ensures ShutdownWait(Run(m, during).value, wakes, deadline)
         == Some(if wakes[0].Tick? then AllStopped else ContextError)
  {
    if wakes[0].Tick? {
      var all := during + wakes[0].meanwhile;
      RunConcat(m, during, wakes[0].meanwhile);
      assert Terminal(all) && NoStart(all) && CancelsAllOf(m, all);
      ShutdownStops(m, all);
    }
  }

  /** So a timeout tells that a subagent was started during the shutdown. */
  lemma TimeoutNeedsStart(m: Entries, during: seq<Event>, wakes: seq<Wake>, deadline: int)
    requires Inv(m) && Terminal(during) && Run(m, during).Some? && CancelsAllOf(m, during)
    requires forall i :: 0 <= i < |wakes| && wakes[i].Tick? ==> Terminal(wakes[i].meanwhile)
    requires ShutdownWait(Run(m, during).value, wakes, deadline) == Some(TimedOut)
    ensures wakes[0].Tick? && !(NoStart(during) && NoStart(wakes[0].meanwhile))
  {
    if wakes[0].Tick? && NoStart(during) && NoStart(wakes[0].meanwhile) {
      ShutdownEnds(m, during, wakes, deadline);
    }
  }
}
