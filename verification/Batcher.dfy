/** The message batcher (internal/adapter/repository/sqlite/batcher.go).

    Producers append under the lock and then signal; one background runner, explicit flushes and the
    final flush of Stop drain the buffer under the lock and then save item by item. Each event below
    is one atomic step, so a run is any interleaving of them. */
module Batcher {
  import opened Text

  datatype Item = Item(conversationID: string, userID: string, platform: string, message: string)

  /** What one drain took, how far its saver has come, and whether an explicit Flush took it. */
  datatype Batch = Batch(items: seq<Item>, saved: nat, failed: bool, flushed: bool) {
    predicate Finished() {
      failed || saved >= |items|
    }
  }

  /** The background goroutine: in its select, past a receive, saving a batch, or returned. */
  datatype Runner = Waiting | Woken | Saving(id: nat) | Exited

  datatype Stopper = Running | Closed | FinalFlush(id: nat) | Stopped

  datatype State = State(
    added: seq<Item>,      // every item passed to Add, in lock order
    buffer: seq<Item>,
    senders: nat,          // Adds between their unlock and their send
    signal: bool,          // the one slot of flushCh
    runner: Runner,
    stopper: Stopper,
    batches: seq<Batch>,   // in drain order
    saved: seq<Item>)      // the repository, in save order

  datatype Event =
    | Append(item: Item) | Send | Tick | Receive | RunnerDrain | RunnerReturn | RunnerExit
    | ExplicitFlush | Save(id: nat, ok: bool) | CloseStop | FinalDrain | StopReturn

  const INIT := State([], [], 0, false, Waiting, Running, [], [])

  function Drained(s: State, flushed: bool): State {
    s.(buffer := [], batches := s.batches + [Batch(s.buffer, 0, false, flushed)])
  }

  /** The state after one atomic step, or None where the step is not enabled. */
  function Step(maxSize: int, s: State, e: Event): Option<State> {
    match e
    case Append(x) =>
      var buffer := s.buffer + [x];
      Some(s.(added := s.added + [x], buffer := buffer,
              senders := if |buffer| >= maxSize then s.senders + 1 else s.senders))
    case Send =>
      if s.senders == 0 then None else Some(s.(senders := s.senders - 1, signal := true))
    case Tick =>
      if s.runner == Waiting then Some(s.(runner := Woken)) else None
    case Receive =>
      if s.runner == Waiting && s.signal then Some(s.(runner := Woken, signal := false)) else None
    case RunnerDrain =>
      if s.runner != Woken then None
      else if s.buffer == [] then Some(s.(runner := Waiting))
      else Some(Drained(s, false).(runner := Saving(|s.batches|)))
    case RunnerReturn =>
      if s.runner.Saving? && s.runner.id < |s.batches| && s.batches[s.runner.id].Finished()
      then Some(s.(runner := Waiting)) else None
    case RunnerExit =>
      if s.runner == Waiting && s.stopper == Closed then Some(s.(runner := Exited)) else None
    case ExplicitFlush => Some(Drained(s, true))
    case Save(id, ok) =>
      if id >= |s.batches| || s.batches[id].Finished() then None
      else
        var b := s.batches[id];
        if ok then Some(s.(batches := s.batches[id := b.(saved := b.saved + 1)], saved := s.saved + [b.items[b.saved]]))
        else Some(s.(batches := s.batches[id := b.(failed := true)]))
    case CloseStop =>
      if s.stopper == Running then Some(s.(stopper := Closed)) else None
    case FinalDrain =>
      if s.stopper == Closed && s.runner == Exited then Some(Drained(s, false).(stopper := FinalFlush(|s.batches|)))
          else None
    case StopReturn =>
      if s.stopper.FinalFlush? && s.stopper.id < |s.batches| && s.batches[s.stopper.id].Finished()
      then Some(s.(stopper := Stopped)) else None
  }

  function Run(maxSize: int, s: State, es: seq<Event>): Option<State>
    decreases |es|
  {
    if es == [] then Some(s)
    else match Step(maxSize, s, es[0])
      case None => None
      case Some(s') => Run(maxSize, s', es[1..])
  }

  lemma RunTwo(maxSize: int, s: State, e: Event, f: Event)
    ensures Run(maxSize, s, [e]) == Step(maxSize, s, e)
    ensures Step(maxSize, s, e).Some? ==> Run(maxSize, s, [e] + [f]) == Step(maxSize, Step(maxSize, s, e).value, f)
  {
    assert ([e] + [f])[1..] == [f] && [f][1..] == [] && [e][1..] == [];
    if Step(maxSize, s, e).Some? {
      var t := Step(maxSize, s, e).value;
      assert Run(maxSize, t, [f]) == Step(maxSize, t, f);
    }
  }

  lemma {:induction false} RunConcat(maxSize: int, s: State, es: seq<Event>, fs: seq<Event>)
    requires Run(maxSize, s, es).Some?
    ensures Run(maxSize, s, es + fs) == Run(maxSize, Run(maxSize, s, es).value, fs)
    decreases |es|
  {
    if es == [] {
      assert es + fs == fs;
    } else {
      assert (es + fs)[1..] == es[1..] + fs;
      RunConcat(maxSize, Step(maxSize, s, es[0]).value, es[1..], fs);
    }
  }

  lemma RunSnoc(maxSize: int, s: State, es: seq<Event>, t: State, e: Event)
    requires Run(maxSize, s, es) == Some(t)
    ensures Run(maxSize, s, es + [e]) == Step(maxSize, t, e)
  {
    RunConcat(maxSize, s, es, [e]);
    assert [e][1..] == [];
  }

  // ---------- the object ----------

  class MessageBatcher {
    var buffer: seq<Item>
    var flushCh: bool
    const maxSize: int
    var repo: seq<Item>
    ghost var protocol: State

    ghost predicate Valid()
      reads this
    {
      protocol.buffer == buffer && protocol.signal == flushCh && protocol.saved == repo
    }

    constructor (maxSize: int)
      ensures Valid() && protocol == INIT && this.maxSize == maxSize
    {
      buffer, flushCh, repo := [], false, [];
      this.maxSize := maxSize;
      protocol := INIT;
    }

    /** The locked part of Add. */
    method AddLocked(item: Item) returns (shouldFlush: bool)
      requires Valid()
      modifies this
      ensures Valid() && Some(protocol) == Step(maxSize, old(protocol), Append(item))
      ensures protocol.senders == old(protocol.senders) + (if shouldFlush then 1 else 0)
    {
      buffer := buffer + [item];
      shouldFlush := |buffer| >= maxSize;
      protocol := Step(maxSize, protocol, Append(item)).value;
    }

    /** The non-blocking send of Add: a full slot means a flush is already scheduled. */
    method TrySend()
      requires Valid() && protocol.senders > 0
      modifies this
      ensures Valid() && Some(protocol) == Step(maxSize, old(protocol), Send)
    {
      if !flushCh {
        flushCh := true;
      }
      protocol := Step(maxSize, protocol, Send).value;
    }

    method Add(item: Item)
      requires Valid()
      modifies this
      ensures Valid()
      ensures Some(protocol) == Run(maxSize, old(protocol),
                                    [Append(item)] + if |old(buffer)| + 1 >= maxSize then [Send] else [])
    {
      var shouldFlush := AddLocked(item);
      if shouldFlush {
        TrySend();
      }
      RunTwo(maxSize, old(protocol), Append(item), Send);
      assert [Append(item)] + [] == [Append(item)];
    }

    /** The locked part of doFlush: an empty buffer ends the call. */
    method DrainForRunner() returns (items: seq<Item>)
      requires Valid() && protocol.runner == Woken
      modifies this
      ensures Valid() && items == old(buffer)
      ensures Some(protocol) == Step(maxSize, old(protocol), RunnerDrain)
    {
      items := buffer;
      if |buffer| != 0 {
        buffer := [];
      }
      protocol := Step(maxSize, protocol, RunnerDrain).value;
    }

    /** The locked part of Flush. */
    method DrainForFlush() returns (items: seq<Item>)
      requires Valid()
      modifies this
      ensures Valid() && items == old(buffer) && Some(protocol) == Step(maxSize, old(protocol), ExplicitFlush)
    {
      items := buffer;
      buffer := [];
      protocol := Step(maxSize, protocol, ExplicitFlush).value;
    }

    /** Saves in order until the first error; `saveOk` says how each SaveMessage goes. */
    method FlushItems(items: seq<Item>, ghost id: nat, saveOk: seq<bool>) returns (err: bool)
      requires Valid() && |saveOk| == |items|
      requires id < |protocol.batches| && protocol.batches[id] == Batch(items, 0, false, protocol.batches[id].flushed)
      modifies this
      ensures Valid()
      ensures var n := FirstError(saveOk); err == (n < |items|) && repo == old(repo) + items[..n]
      ensures protocol == AfterSaves(old(protocol), id, FirstError(saveOk), err)
      ensures Run(maxSize, old(protocol), Saves(id, FirstError(saveOk)) + if err then [Save(id, false)] else [])
              == Some(protocol)
    {
      hide Step, Run, Saves, AfterSaves;
      var i := 0;
      ghost var before, n := protocol, FirstError(saveOk);
      SavesStart(maxSize, before, id);
      while i < |items|
        invariant i <= n <= |items| && Valid()
        invariant repo == old(repo) + items[..i]
        invariant protocol == AfterSaves(before, id, i, false)
        invariant Run(maxSize, before, Saves(id, i)) == Some(protocol)
      {
        SavesStep(maxSize, before, id, i, saveOk[i]);
        if !saveOk[i] {
          protocol := AfterSaves(before, id, i, true);
          return true;
        }
        repo := repo + [items[i]];
        protocol := AfterSaves(before, id, i + 1, false);
        i := i + 1;
      }
      assert Saves(id, n) + [] == Saves(id, n);
      return false;
    }

    /** doFlush, with nothing else between its parts. */
    method DoFlush(saveOk: seq<bool>) returns (err: bool, ghost es: seq<Event>)
      requires Valid() && protocol.runner == Woken && |saveOk| == |buffer|
      modifies this
      ensures Valid() && buffer == [] && protocol.runner == Waiting
      ensures var n := FirstError(saveOk); err == (n < |saveOk|) && repo == old(repo) + old(buffer)[..n]
      ensures Run(maxSize, old(protocol), es) == Some(protocol) && ExplicitFlush !in es
    {
      hide FirstError;
      ghost var id := |protocol.batches|;
      var items := DrainForRunner();
      es := [RunnerDrain];
      RunTwo(maxSize, old(protocol), RunnerDrain, RunnerDrain);
      if |items| == 0 {
        err := false;
        assert FirstError(saveOk) == 0 by { FirstErrorBound(saveOk); }
        assert repo == old(repo) + old(buffer)[..0];
        return;
      }
      ghost var drained := protocol;
      err := FlushItems(items, id, saveOk);
      ghost var saves := Saves(id, FirstError(saveOk)) + if err then [Save(id, false)] else [];
      SavesOnly(id, FirstError(saveOk));
      FirstErrorBound(saveOk);
      RunConcat(maxSize, old(protocol), es, saves);
      RunSnoc(maxSize, old(protocol), es + saves, protocol, RunnerReturn);
      es := es + saves + [RunnerReturn];
      protocol := Step(maxSize, protocol, RunnerReturn).value;
    }

    /** Flush, with nothing else between its parts. */
    method Flush(saveOk: seq<bool>) returns (err: bool, ghost es: seq<Event>)
      requires Valid() && |saveOk| == |buffer|
      modifies this
      ensures Valid() && buffer == [] && protocol.runner == old(protocol.runner)
      ensures var n := FirstError(saveOk); err == (n < |saveOk|) && repo == old(repo) + old(buffer)[..n]
      ensures Run(maxSize, old(protocol), es) == Some(protocol)
    {
      hide FirstError;
      ghost var id := |protocol.batches|;
      var items := DrainForFlush();
      es := [ExplicitFlush];
      RunTwo(maxSize, old(protocol), ExplicitFlush, ExplicitFlush);
      err := FlushItems(items, id, saveOk);
      ghost var saves := Saves(id, FirstError(saveOk)) + if err then [Save(id, false)] else [];
      RunConcat(maxSize, old(protocol), es, saves);
      es := es + saves;
    }
  }

  /** The state after n items of batch id were saved, and then perhaps an error. */
  function AfterSaves(s: State, id: nat, n: nat, failed: bool): State
    requires id < |s.batches| && n <= |s.batches[id].items|
  {
    var b := s.batches[id].(saved := n, failed := failed);
    s.(saved := s.saved + b.items[..n], batches := s.batches[id := b])
  }

  lemma SavesStart(maxSize: int, s: State, id: nat)
    requires id < |s.batches| && s.batches[id].saved == 0 && !s.batches[id].failed
    ensures AfterSaves(s, id, 0, false) == s && Run(maxSize, s, Saves(id, 0)) == Some(s)
  {
    assert s.batches[id := s.batches[id]] == s.batches && s.saved + [] == s.saved;
  }

  /** One more save. */
  lemma SaveOne(maxSize: int, s: State, id: nat, n: nat, ok: bool)
    requires id < |s.batches| && n < |s.batches[id].items|
    ensures Step(maxSize, AfterSaves(s, id, n, false), Save(id, ok))
         == Some(if ok then AfterSaves(s, id, n + 1, false) else AfterSaves(s, id, n, true))
  {
    var items, b := s.batches[id].items, s.batches[id].(saved := n, failed := false);
    var t := AfterSaves(s, id, n, false);
    assert s.saved + items[..n + 1] == s.saved + items[..n] + [items[n]];
    assert t.batches[id] == b && !b.Finished();
    assert t.batches[id := b.(saved := n + 1)] == s.batches[id := b.(saved := n + 1)];
    assert t.batches[id := b.(failed := true)] == s.batches[id := b.(failed := true)];
  }

  lemma SavesStep(maxSize: int, s: State, id: nat, n: nat, ok: bool)
    requires id < |s.batches| && n < |s.batches[id].items|
    requires Run(maxSize, s, Saves(id, n)) == Some(AfterSaves(s, id, n, false))
    ensures ok ==> Run(maxSize, s, Saves(id, n + 1)) == Some(AfterSaves(s, id, n + 1, false))
    ensures !ok ==> Run(maxSize, s, Saves(id, n) + [Save(id, false)]) == Some(AfterSaves(s, id, n, true))
    ensures var now, next := AfterSaves(s, id, n, false), AfterSaves(s, id, if ok then n + 1 else n, !ok);
            && next.buffer == now.buffer && next.signal == now.signal
            && next.saved == now.saved + if ok then [s.batches[id].items[n]] else []
  {
    SaveOne(maxSize, s, id, n, ok);
    hide Step;
    RunSnoc(maxSize, s, Saves(id, n), AfterSaves(s, id, n, false), Save(id, ok));
  }

  /** The events of n successful saves of one batch. */
  function Saves(id: nat, n: nat): seq<Event> {
    if n == 0 then [] else Saves(id, n - 1) + [Save(id, true)]
  }

  lemma {:induction false} SavesOnly(id: nat, n: nat)
    ensures forall e :: e in Saves(id, n) ==> e == Save(id, true)
  {
    if n > 0 {
      SavesOnly(id, n - 1);
    }
  }

  lemma FirstErrorBound(saveOk: seq<bool>)
    ensures FirstError(saveOk) <= |saveOk|
  {
  }

  /** How many saves succeed before the first error. */
  function FirstError(saveOk: seq<bool>): (n: nat)
    ensures n <= |saveOk| && (forall i :: 0 <= i < n ==> saveOk[i]) && (n < |saveOk| ==> !saveOk[n])
  {
    if saveOk == [] || !saveOk[0] then 0 else 1 + FirstError(saveOk[1..])
  }

  // ---------- invariants of every interleaving ----------

  function Items(bs: seq<Batch>): seq<Item> {
    if bs == [] then [] else Items(bs[..|bs| - 1]) + bs[|bs| - 1].items
  }

  /** The saved prefix of every batch. */
  function Prefixes(bs: seq<Batch>): seq<Item> {
    if bs == [] then [] else Prefixes(bs[..|bs| - 1]) + SavedPart(bs[|bs| - 1])
  }

  function SavedPart(b: Batch): seq<Item> {
    b.items[..if b.saved <= |b.items| then b.saved else 0]
  }

  lemma SavedPartGrows(b: Batch)
    requires b.saved < |b.items|
    ensures SavedPart(b.(saved := b.saved + 1)) == SavedPart(b) + [b.items[b.saved]]
  {
  }

  lemma MultisetOfSum(a: seq<Item>, b: seq<Item>)
    ensures multiset(a + b) == multiset(a) + multiset(b)
  {
  }

  ghost predicate BatchesWellFormed(bs: seq<Batch>) {
    forall i :: 0 <= i < |bs| ==> bs[i].saved <= |bs[i].items| && (bs[i].failed ==> bs[i].saved < |bs[i].items|)
  }

  /** A full buffer is never forgotten: a signal is pending, about to be sent, or just received. */
  ghost predicate NoLostWakeUp(maxSize: int, s: State) {
    s.runner != Exited && s.buffer != [] && |s.buffer| >= maxSize ==> s.signal || s.senders > 0 || s.runner == Woken
  }

  ghost predicate Inv(maxSize: int, s: State) {
    && s.added == Items(s.batches) + s.buffer
    && BatchesWellFormed(s.batches)
    && multiset(s.saved) == multiset(Prefixes(s.batches))
    && NoLostWakeUp(maxSize, s)
    && (s.runner == Exited ==> s.stopper != Running)
  }

  lemma {:induction false} ItemsKeptBySave(bs: seq<Batch>, i: nat, b: Batch)
    requires i < |bs| && b.items == bs[i].items
    ensures Items(bs[i := b]) == Items(bs)
  {
    var n := |bs| - 1;
    if i < n {
      assert bs[i := b][..n] == bs[..n][i := b];
      ItemsKeptBySave(bs[..n], i, b);
    } else {
      assert bs[i := b][..n] == bs[..n];
    }
  }

  lemma {:induction false} PrefixesAfterSave(bs: seq<Batch>, i: nat)
    requires i < |bs| && bs[i].saved < |bs[i].items|
    ensures var b := bs[i].(saved := bs[i].saved + 1);
            multiset(Prefixes(bs[i := b])) == multiset(Prefixes(bs)) + multiset{bs[i].items[bs[i].saved]}
  {
    hide SavedPart;
    var n := |bs| - 1;
    var b := bs[i].(saved := bs[i].saved + 1);
    var cs, front, last := bs[i := b], bs[..n], SavedPart(bs[n]);
    MultisetOfSum(Prefixes(front), last);
    if i < n {
      assert cs[..n] == front[i := b];
      PrefixesAfterSave(front, i);
      MultisetOfSum(Prefixes(front[i := b]), last);
    } else {
      assert cs[..n] == front;
      SavedPartGrows(bs[n]);
      assert Prefixes(cs) == Prefixes(front) + last + [b.items[bs[i].saved]];
      MultisetOfSum(Prefixes(front) + last, [b.items[bs[i].saved]]);
    }
  }

  lemma {:induction false} PrefixesAfterError(bs: seq<Batch>, i: nat, b: Batch)
    requires i < |bs| && b.items == bs[i].items && b.saved == bs[i].saved
    ensures Prefixes(bs[i := b]) == Prefixes(bs)
  {
    var n := |bs| - 1;
    if i < n {
      assert bs[i := b][..n] == bs[..n][i := b];
      PrefixesAfterError(bs[..n], i, b);
    } else {
      assert bs[i := b][..n] == bs[..n];
    }
  }

  lemma NewBatch(bs: seq<Batch>, items: seq<Item>, flushed: bool)
    ensures var more := bs + [Batch(items, 0, false, flushed)];
            Items(more) == Items(bs) + items && Prefixes(more) == Prefixes(bs)
  {
    var more := bs + [Batch(items, 0, false, flushed)];
    assert more[..|bs|] == bs;
    assert SavedPart(more[|bs|]) == [];
  }

  lemma DrainKeepsInv(maxSize: int, s: State, flushed: bool)
    requires Inv(maxSize, s)
    ensures var t := Drained(s, flushed);
            && t.added == Items(t.batches) + t.buffer
            && BatchesWellFormed(t.batches)
            && multiset(t.saved) == multiset(Prefixes(t.batches))
  {
    hide Items, Prefixes, NoLostWakeUp;
    NewBatch(s.batches, s.buffer, flushed);
    assert s.added + [] == s.added;
  }

  lemma SaveOkKeepsInv(maxSize: int, s: State, id: nat)
    requires Inv(maxSize, s) && id < |s.batches| && !s.batches[id].Finished()
    ensures Inv(maxSize, Step(maxSize, s, Save(id, true)).value)
  {
    hide Items, Prefixes;
    var b := s.batches[id];
    var t := Step(maxSize, s, Save(id, true)).value;
    ItemsKeptBySave(s.batches, id, b.(saved := b.saved + 1));
    PrefixesAfterSave(s.batches, id);
    MultisetOfSum(s.saved, [b.items[b.saved]]);
  }

  lemma SaveErrorKeepsInv(maxSize: int, s: State, id: nat)
    requires Inv(maxSize, s) && id < |s.batches| && !s.batches[id].Finished()
    ensures Inv(maxSize, Step(maxSize, s, Save(id, false)).value)
  {
    hide Items, Prefixes;
    var b := s.batches[id];
    ItemsKeptBySave(s.batches, id, b.(failed := true));
    PrefixesAfterError(s.batches, id, b.(failed := true));
  }

  lemma StepKeepsInv(maxSize: int, s: State, e: Event)
    requires Inv(maxSize, s) && Step(maxSize, s, e).Some?
    ensures Inv(maxSize, Step(maxSize, s, e).value)
  {
    hide Items, Prefixes;
    match e
    case Append(x) =>
      assert Items(s.batches) + s.buffer + [x] == Items(s.batches) + (s.buffer + [x]);
    case RunnerDrain => DrainKeepsInv(maxSize, s, false);
    case ExplicitFlush => DrainKeepsInv(maxSize, s, true);
    case FinalDrain => DrainKeepsInv(maxSize, s, false);
    case Save(id, ok) =>
      if ok {
        SaveOkKeepsInv(maxSize, s, id);
      } else {
        SaveErrorKeepsInv(maxSize, s, id);
      }
    case _ =>
  }

  lemma {:induction false} RunKeepsInv(maxSize: int, s: State, es: seq<Event>)
    requires Inv(maxSize, s) && Run(maxSize, s, es).Some?
    ensures Inv(maxSize, Run(maxSize, s, es).value)
    decreases |es|
  {
    if es != [] {
      StepKeepsInv(maxSize, s, es[0]);
      RunKeepsInv(maxSize, Step(maxSize, s, es[0]).value, es[1..]);
    }
  }

  /** Every state that a run from the start reaches keeps the invariant. */
  lemma ReachableInv(maxSize: int, es: seq<Event>)
    requires Run(maxSize, INIT, es).Some?
    ensures Inv(maxSize, Run(maxSize, INIT, es).value)
  {
    RunKeepsInv(maxSize, INIT, es);
  }
}
