/** What runs of the message batcher guarantee (internal/adapter/repository/sqlite/batcher.go), explicit
    flushes included: what is saved, in which order, and when Stop has saved everything. */
module BatcherGuarantees {
  import opened Text
  import opened Batcher

  // ---------- who saved what: the log of a run ----------

  /** The batch of each successful save of a run, in save order. */
  function SaveLog(es: seq<Event>): seq<nat> {
    if es == [] then [] else (if es[0].Save? && es[0].ok then [es[0].id] else []) + SaveLog(es[1..])
  }

  function Count(log: seq<nat>, id: nat): nat {
    if log == [] then 0 else Count(log[..|log| - 1], id) + if log[|log| - 1] == id then 1 else 0
  }

  /** The repository is an interleaving of the batches' saved prefixes: the k-th saved item is the next
      item of the batch that the log names. */
  ghost predicate Explains(log: seq<nat>, s: State) {
    && |log| == |s.saved|
    && (forall b: nat :: b < |s.batches| ==> Count(log, b) == s.batches[b].saved)
    && forall k :: 0 <= k < |log| ==> SavedFrom(log, s.batches, s.saved[k], k)
  }

  ghost predicate SavedFrom(log: seq<nat>, bs: seq<Batch>, item: Item, k: nat)
    requires k < |log|
  {
    var b, place := log[k], Count(log[..k], log[k]);
    b < |bs| && place < |bs[b].items| && item == bs[b].items[place]
  }

  lemma {:induction false} CountAbsent(log: seq<nat>, id: nat)
    requires forall k :: 0 <= k < |log| ==> log[k] < id
    ensures Count(log, id) == 0
  {
    if log != [] {
      CountAbsent(log[..|log| - 1], id);
    }
  }

  lemma {:induction false} CountPresent(log: seq<nat>, id: nat, k: nat)
    requires k < |log| && log[k] == id
    ensures Count(log, id) > 0
  {
    if k < |log| - 1 {
      CountPresent(log[..|log| - 1], id, k);
    }
  }

  lemma CountSnoc(log: seq<nat>, id: nat, b: nat)
    ensures Count(log + [id], b) == Count(log, b) + if b == id then 1 else 0
  {
    assert (log + [id])[..|log|] == log;
  }

  lemma SaveExplains(log: seq<nat>, s: State, id: nat)
    requires Explains(log, s) && id < |s.batches| && s.batches[id].saved < |s.batches[id].items|
    ensures var b := s.batches[id];
            Explains(log + [id], s.(batches := s.batches[id := b.(saved := b.saved + 1)],
                                    saved := s.saved + [b.items[b.saved]]))
  {
    var more, b := log + [id], s.batches[id];
    var t := s.(batches := s.batches[id := b.(saved := b.saved + 1)], saved := s.saved + [b.items[b.saved]]);
    forall c: nat | c < |t.batches| ensures Count(more, c) == t.batches[c].saved {
      CountSnoc(log, id, c);
    }
    forall k | 0 <= k < |more| ensures SavedFrom(more, t.batches, t.saved[k], k) {
      if k < |log| {
        assert more[..k] == log[..k] && SavedFrom(log, s.batches, s.saved[k], k);
      } else {
        assert more[..k] == log;
      }
    }
  }

  lemma DrainExplains(log: seq<nat>, s: State, flushed: bool)
    requires Explains(log, s)
    ensures Explains(log, Drained(s, flushed))
  {
    var t := Drained(s, flushed);
    forall k | 0 <= k < |log| ensures log[k] < |s.batches| && SavedFrom(log, t.batches, t.saved[k], k) {
      assert SavedFrom(log, s.batches, s.saved[k], k);
    }
    CountAbsent(log, |s.batches|);
  }

  /** The log after one more event. */
  function Logged(log: seq<nat>, e: Event): seq<nat> {
    if e.Save? && e.ok then log + [e.id] else log
  }

  lemma StepExplains(maxSize: int, s: State, e: Event, log: seq<nat>)
    requires Explains(log, s) && Step(maxSize, s, e).Some?
    ensures Explains(Logged(log, e), Step(maxSize, s, e).value)
  {
    hide Count, SavedFrom;
    match e
    case RunnerDrain => DrainExplains(log, s, false);
    case ExplicitFlush => DrainExplains(log, s, true);
    case FinalDrain => DrainExplains(log, s, false);
    case Save(id, ok) =>
      if ok {
        SaveExplains(log, s, id);
      } else {
        ErrorExplains(log, s, id);
      }
    case _ =>
  }

  lemma ErrorExplains(log: seq<nat>, s: State, id: nat)
    requires Explains(log, s) && id < |s.batches|
    ensures Explains(log, s.(batches := s.batches[id := s.batches[id].(failed := true)]))
  {
    var t := s.(batches := s.batches[id := s.batches[id].(failed := true)]);
    forall k | 0 <= k < |log| ensures SavedFrom(log, t.batches, t.saved[k], k) {
      assert SavedFrom(log, s.batches, s.saved[k], k);
    }
  }

  lemma LogStep(log: seq<nat>, es: seq<Event>)
    requires es != []
    ensures log + SaveLog(es) == Logged(log, es[0]) + SaveLog(es[1..])
  {
    AppendRegroups(log, if es[0].Save? && es[0].ok then [es[0].id] else [], SaveLog(es[1..]));
    assert log + [] == log;
  }

  lemma AppendRegroups(xs: seq<nat>, ys: seq<nat>, zs: seq<nat>)
    ensures xs + (ys + zs) == (xs + ys) + zs
  {
  }

  lemma {:induction false} RunExplains(maxSize: int, s: State, es: seq<Event>, log: seq<nat>)
    requires Explains(log, s) && Run(maxSize, s, es).Some?
    ensures Explains(log + SaveLog(es), Run(maxSize, s, es).value)
    decreases |es|
  {
    if es == [] {
      assert log + [] == log;
    } else {
      StepExplains(maxSize, s, es[0], log);
      LogStep(log, es);
      RunExplains(maxSize, Step(maxSize, s, es[0]).value, es[1..], Logged(log, es[0]));
    }
  }

  /** In every interleaving: nothing is lost before it is drained; the repository is an interleaving of
      the batches' saved prefixes, each in its own order; and no wake-up is lost. */
  lemma EveryInterleaving(maxSize: int, es: seq<Event>)
    requires Run(maxSize, INIT, es).Some?
    ensures var s := Run(maxSize, INIT, es).value;
            && s.added == Items(s.batches) + s.buffer
            && (forall i :: 0 <= i < |s.batches| ==> s.batches[i].saved <= |s.batches[i].items|)
            && multiset(s.saved) == multiset(Prefixes(s.batches))
            && Explains(SaveLog(es), s)
            && (s.stopper == Running ==> NoLostWakeUp(maxSize, s) && s.runner != Exited)
  {
    ReachableInv(maxSize, es);
    RunExplains(maxSize, INIT, es, []);
    assert [] + SaveLog(es) == SaveLog(es);
  }

  // ---------- when everything is saved ----------

  /** The number of items that save errors dropped. */
  function Lost(bs: seq<Batch>): int {
    if bs == [] then 0 else Lost(bs[..|bs| - 1]) + |bs[|bs| - 1].items| - bs[|bs| - 1].saved
  }

  lemma {:induction false} LostCounts(bs: seq<Batch>)
    requires BatchesWellFormed(bs)
    ensures |Items(bs)| == |Prefixes(bs)| + Lost(bs) && Lost(bs) >= 0
    ensures Lost(bs) == 0 ==> Items(bs) == Prefixes(bs)
    ensures Lost(bs) == 0 <==> forall i :: 0 <= i < |bs| ==> bs[i].saved == |bs[i].items|
  {
    if bs != [] {
      LostCounts(bs[..|bs| - 1]);
      assert forall i :: 0 <= i < |bs| - 1 ==> bs[..|bs| - 1][i] == bs[i];
    }
  }

  /** Every drained batch was saved to its end, and nothing waits in the buffer. */
  predicate Complete(s: State) {
    s.buffer == [] && forall i :: 0 <= i < |s.batches| ==> s.batches[i].Finished() && !s.batches[i].failed
  }

  /** In every run, flushes included: the repository holds exactly the added items if and only if the
      buffer is empty and every batch was saved to its end without an error. */
  lemma EverythingSavedIff(maxSize: int, es: seq<Event>)
    requires Run(maxSize, INIT, es).Some?
    ensures var s := Run(maxSize, INIT, es).value;
            && (multiset(s.saved) == multiset(s.added) <==> Complete(s))
            && (Complete(s)
                <==> s.buffer == [] && forall i :: 0 <= i < |s.batches| ==> s.batches[i].saved == |s.batches[i].items|)
  {
    ReachableInv(maxSize, es);
    StateSavedIff(maxSize, Run(maxSize, INIT, es).value);
  }

  lemma StateSavedIff(maxSize: int, s: State)
    requires Inv(maxSize, s)
    ensures multiset(s.saved) == multiset(s.added) <==> Complete(s)
    ensures Complete(s)
       <==> s.buffer == [] && forall i :: 0 <= i < |s.batches| ==> s.batches[i].saved == |s.batches[i].items|
    ensures Complete(s) ==> s.added == Prefixes(s.batches)
  {
    LostCounts(s.batches);
    assert |multiset(s.saved)| == |s.saved| && |multiset(s.added)| == |s.added|;
    assert |multiset(Prefixes(s.batches))| == |Prefixes(s.batches)|;
    assert Complete(s) ==> s.added == Items(s.batches) + [];
  }

  // ---------- who is saving ----------

  /** Only an explicit flush, the waiting runner or Stop itself can hold an unfinished batch. */
  ghost predicate Owned(s: State) {
    && (s.stopper.FinalFlush? || s.stopper.Stopped? ==> s.runner == Exited)
    && forall i :: 0 <= i < |s.batches| && !s.batches[i].flushed && !s.batches[i].Finished() ==>
         s.runner == Saving(i) || s.stopper == FinalFlush(i)
  }

  lemma StepKeepsOwned(maxSize: int, s: State, e: Event)
    requires Owned(s) && Step(maxSize, s, e).Some?
    ensures Owned(Step(maxSize, s, e).value)
  {
  }

  lemma {:induction false} RunKeepsOwned(maxSize: int, s: State, es: seq<Event>)
    requires Owned(s) && Run(maxSize, s, es).Some?
    ensures Owned(Run(maxSize, s, es).value)
    decreases |es|
  {
    if es != [] {
      StepKeepsOwned(maxSize, s, es[0]);
      RunKeepsOwned(maxSize, Step(maxSize, s, es[0]).value, es[1..]);
    }
  }

  /** When Stop has returned, everything is saved exactly if no save failed, nothing was added too late
      and no explicit flush is still saving. */
  lemma StopSavesEverythingIff(maxSize: int, es: seq<Event>)
    requires Run(maxSize, INIT, es).Some? && Run(maxSize, INIT, es).value.stopper == Stopped
    ensures var s := Run(maxSize, INIT, es).value;
            multiset(s.saved) == multiset(s.added)
            <==> && s.buffer == []
                 && forall i :: 0 <= i < |s.batches| ==>
                      !s.batches[i].failed && (s.batches[i].flushed ==> s.batches[i].Finished())
  {
    EverythingSavedIff(maxSize, es);
    RunKeepsOwned(maxSize, INIT, es);
  }

  // ---------- the order of saves ----------

  predicate Ascending(log: seq<nat>) {
    forall p, q :: 0 <= p < q < |log| ==> log[p] <= log[q]
  }

  /** Saving from a batch after which nothing is saved yet appends to the prefixes. */
  lemma {:induction false} PrefixesAppend(bs: seq<Batch>, i: nat)
    requires i < |bs| && bs[i].saved < |bs[i].items| && forall j :: i < j < |bs| ==> bs[j].saved == 0
    ensures Prefixes(bs[i := bs[i].(saved := bs[i].saved + 1)]) == Prefixes(bs) + [bs[i].items[bs[i].saved]]
  {
    var n := |bs| - 1;
    var b := bs[i].(saved := bs[i].saved + 1);
    if i < n {
      assert bs[i := b][..n] == bs[..n][i := b];
      PrefixesAppend(bs[..n], i);
      assert SavedPart(bs[n]) == [];
    } else {
      assert bs[i := b][..n] == bs[..n];
      SavedPartGrows(bs[i]);
    }
  }

  /** Ascending so far means saved in the order of draining. */
  ghost predicate OrderedSoFar(log: seq<nat>, s: State) {
    Ascending(log) ==> s.saved == Prefixes(s.batches)
  }

  lemma SaveKeepsOrdered(maxSize: int, s: State, id: nat, log: seq<nat>)
    requires Inv(maxSize, s) && Explains(log, s) && OrderedSoFar(log, s)
    requires id < |s.batches| && !s.batches[id].Finished()
    ensures OrderedSoFar(log + [id], Step(maxSize, s, Save(id, true)).value)
  {
    hide Prefixes, Items, SavedFrom, NoLostWakeUp;
    var more := log + [id];
    if Ascending(more) {
      forall p | 0 <= p < |log| ensures log[p] <= id {
        assert more[p] <= more[|log|];
      }
      forall p, q | 0 <= p < q < |log| ensures log[p] <= log[q] {
        assert more[p] <= more[q];
      }
      forall j | id < j < |s.batches| ensures s.batches[j].saved == 0 {
        CountAbsent(log, j);
      }
      PrefixesAppend(s.batches, id);
    }
  }

  lemma StepKeepsOrdered(maxSize: int, s: State, e: Event, log: seq<nat>)
    requires Inv(maxSize, s) && Explains(log, s) && OrderedSoFar(log, s) && Step(maxSize, s, e).Some?
    ensures OrderedSoFar(Logged(log, e), Step(maxSize, s, e).value)
  {
    hide Prefixes, Items, Explains, Ascending, NoLostWakeUp;
    match e
    case RunnerDrain => NewBatch(s.batches, s.buffer, false);
    case ExplicitFlush => NewBatch(s.batches, s.buffer, true);
    case FinalDrain => NewBatch(s.batches, s.buffer, false);
    case Save(id, ok) =>
      if ok {
        SaveKeepsOrdered(maxSize, s, id, log);
      } else {
        PrefixesAfterError(s.batches, id, s.batches[id].(failed := true));
      }
    case _ =>
  }

  lemma {:induction false} RunKeepsOrdered(maxSize: int, s: State, es: seq<Event>, log: seq<nat>)
    requires Inv(maxSize, s) && Explains(log, s) && OrderedSoFar(log, s) && Run(maxSize, s, es).Some?
    ensures OrderedSoFar(log + SaveLog(es), Run(maxSize, s, es).value)
    decreases |es|
  {
    hide Inv, Explains, OrderedSoFar;
    if es == [] {
      assert log + SaveLog(es) == log;
    } else {
      var t := Step(maxSize, s, es[0]).value;
      StepKeepsInv(maxSize, s, es[0]);
      StepExplains(maxSize, s, es[0], log);
      StepKeepsOrdered(maxSize, s, es[0], log);
      LogStep(log, es);
      RunKeepsOrdered(maxSize, t, es[1..], Logged(log, es[0]));
    }
  }

  // ---------- and back: out of turn means out of order ----------

  ghost predicate Distinct(xs: seq<Item>) {
    forall i, j :: 0 <= i < j < |xs| ==> xs[i] != xs[j]
  }

  lemma {:induction false} ItemsHold(bs: seq<Batch>, i: nat, x: Item)
    requires i < |bs| && x in bs[i].items
    ensures x in Items(bs)
  {
    if i < |bs| - 1 {
      ItemsHold(bs[..|bs| - 1], i, x);
    }
  }

  lemma DistinctApart(xs: seq<Item>, ys: seq<Item>, x: Item)
    requires Distinct(xs + ys) && x in xs
    ensures x !in ys
  {
    var p :| 0 <= p < |xs| && xs[p] == x;
    forall q | 0 <= q < |ys| ensures ys[q] != x {
      assert (xs + ys)[p] != (xs + ys)[|xs| + q];
    }
  }

  /** With distinct items each item tells its batch. */
  lemma {:induction false} ItemTellsBatch(bs: seq<Batch>, i: nat, j: nat, x: Item)
    requires Distinct(Items(bs)) && i <= j < |bs| && x in bs[i].items && x in bs[j].items
    ensures i == j
  {
    var front, last := bs[..|bs| - 1], bs[|bs| - 1].items;
    assert Items(bs) == Items(front) + last;
    if j < |bs| - 1 {
      assert forall p :: 0 <= p < |Items(front)| ==> Items(bs)[p] == Items(front)[p];
      ItemTellsBatch(front, i, j, x);
    } else if i < j {
      ItemsHold(front, i, x);
      DistinctApart(Items(front), last, x);
    }
  }

  /** The batch that the k-th item of the prefixes belongs to. */
  function PlaceOf(bs: seq<Batch>, k: nat): (b: nat)
    requires k < |Prefixes(bs)|
    ensures b < |bs| && Prefixes(bs)[k] in bs[b].items
  {
    var n := |bs| - 1;
    if k < |Prefixes(bs[..n])| then PlaceOf(bs[..n], k)
    else
      assert Prefixes(bs)[k] == SavedPart(bs[n])[k - |Prefixes(bs[..n])|];
      n
  }

  lemma {:induction false} PlacesAscend(bs: seq<Batch>, p: nat, q: nat)
    requires p <= q < |Prefixes(bs)|
    ensures PlaceOf(bs, p) <= PlaceOf(bs, q)
  {
    if q < |Prefixes(bs[..|bs| - 1])| {
      PlacesAscend(bs[..|bs| - 1], p, q);
    }
  }

  lemma OrderShows(log: seq<nat>, s: State)
    requires Explains(log, s) && Distinct(Items(s.batches)) && s.saved == Prefixes(s.batches)
    ensures Ascending(log)
  {
    forall k | 0 <= k < |log| ensures log[k] == PlaceOf(s.batches, k) {
      assert SavedFrom(log, s.batches, s.saved[k], k);
      var b := PlaceOf(s.batches, k);
      ItemTellsBatch(s.batches, if b <= log[k] then b else log[k], if b <= log[k] then log[k] else b, s.saved[k]);
    }
    forall p, q | 0 <= p < q < |log| ensures log[p] <= log[q] {
      PlacesAscend(s.batches, p, q);
    }
  }

  lemma DistinctPart(xs: seq<Item>, ys: seq<Item>)
    requires Distinct(xs + ys)
    ensures Distinct(xs)
  {
    assert forall i :: 0 <= i < |xs| ==> (xs + ys)[i] == xs[i];
  }

  /** Items reach the repository in the order they were added whenever no batch is saved from after a
      later one; and with distinct items only then. So flushes lose the order exactly by overtaking. */
  lemma OrderKeptIff(maxSize: int, es: seq<Event>)
    requires Run(maxSize, INIT, es).Some?
    ensures var s := Run(maxSize, INIT, es).value;
            && (Ascending(SaveLog(es)) ==> s.saved == Prefixes(s.batches))
            && (Distinct(s.added) && s.saved == Prefixes(s.batches) ==> Ascending(SaveLog(es)))
  {
    hide SaveLog, Prefixes, Items, Ascending;
    var s := Run(maxSize, INIT, es).value;
    EveryInterleaving(maxSize, es);
    assert OrderedSoFar([], INIT) && Inv(maxSize, INIT) && Explains([], INIT) by {
      StartsOrdered(maxSize);
    }
    RunKeepsOrdered(maxSize, INIT, es, []);
    assert [] + SaveLog(es) == SaveLog(es);
    if Distinct(s.added) && s.saved == Prefixes(s.batches) {
      DistinctPart(Items(s.batches), s.buffer);
      OrderShows(SaveLog(es), s);
    }
  }

  lemma StartsOrdered(maxSize: int)
    ensures OrderedSoFar([], INIT) && Inv(maxSize, INIT) && Explains([], INIT)
  {
  }

  /** With distinct items the repository equals the added sequence exactly if every batch was saved to
      its end, nothing waits in the buffer, and no save overtook another. */
  lemma SavedInOrderIff(maxSize: int, es: seq<Event>)
    requires Run(maxSize, INIT, es).Some?
    ensures var s := Run(maxSize, INIT, es).value;
            && (Complete(s) && Ascending(SaveLog(es)) ==> s.saved == s.added)
            && (Distinct(s.added) && s.saved == s.added ==> Complete(s) && Ascending(SaveLog(es)))
  {
    hide SaveLog, Prefixes, Items, Ascending, Complete;
    ReachableInv(maxSize, es);
    StateSavedIff(maxSize, Run(maxSize, INIT, es).value);
    OrderKeptIff(maxSize, es);
  }

  // ---------- runs that drain in turn ----------

  /** Every drain, explicit or not, comes only when all earlier batches are finished. */
  ghost predicate DrainsInTurn(maxSize: int, s: State, es: seq<Event>)
    decreases |es|
  {
    es != [] && Step(maxSize, s, es[0]).Some? ==>
      var t := Step(maxSize, s, es[0]).value;
      && (|t.batches| > |s.batches| ==> forall i :: 0 <= i < |s.batches| ==> s.batches[i].Finished())
      && DrainsInTurn(maxSize, t, es[1..])
  }

  /** Only the last batch can be unfinished, and nothing was saved from a later one. */
  ghost predicate LastActive(log: seq<nat>, s: State) {
    && (forall i :: 0 <= i < |s.batches| - 1 ==> s.batches[i].Finished())
    && (forall k :: 0 <= k < |log| ==> log[k] < |s.batches|)
    && Ascending(log)
  }

  lemma {:induction false} InTurnAscends(maxSize: int, s: State, es: seq<Event>, log: seq<nat>)
    requires DrainsInTurn(maxSize, s, es) && LastActive(log, s) && Run(maxSize, s, es).Some?
    ensures Ascending(log + SaveLog(es))
    decreases |es|
  {
    if es == [] {
      assert log + SaveLog(es) == log;
    } else {
      LogStep(log, es);
      InTurnStep(maxSize, s, es[0], log);
      InTurnAscends(maxSize, Step(maxSize, s, es[0]).value, es[1..], Logged(log, es[0]));
    }
  }

  lemma InTurnStep(maxSize: int, s: State, e: Event, log: seq<nat>)
    requires LastActive(log, s) && Step(maxSize, s, e).Some?
    requires |Step(maxSize, s, e).value.batches| > |s.batches| ==>
               forall i :: 0 <= i < |s.batches| ==> s.batches[i].Finished()
    ensures LastActive(Logged(log, e), Step(maxSize, s, e).value)
  {
  }

  lemma StartsActive()
    ensures LastActive([], INIT)
  {
  }

  /** Draining in turn keeps the order. */
  lemma InTurnIsOrdered(maxSize: int, es: seq<Event>)
    requires DrainsInTurn(maxSize, INIT, es) && Run(maxSize, INIT, es).Some?
    ensures var s := Run(maxSize, INIT, es).value; s.saved == Prefixes(s.batches)
  {
    hide *;
    assert LastActive([], INIT) by {
      StartsActive();
    }
    InTurnAscends(maxSize, INIT, es, []);
    assert [] + SaveLog(es) == SaveLog(es);
    OrderKeptIff(maxSize, es);
  }

  /** Without explicit flushes every drain is in turn: the runner and Stop never overlap. */
  lemma {:induction false} NoFlushDrainsInTurn(maxSize: int, s: State, es: seq<Event>)
    requires ExplicitFlush !in es && Run(maxSize, s, es).Some?
    requires Owned(s) && forall i :: 0 <= i < |s.batches| ==> !s.batches[i].flushed
    ensures DrainsInTurn(maxSize, s, es)
    ensures var t := Run(maxSize, s, es).value; forall i :: 0 <= i < |t.batches| ==> !t.batches[i].flushed
    decreases |es|
  {
    if es != [] {
      assert es[0] in es;
      StepKeepsOwned(maxSize, s, es[0]);
      NoFlushDrainsInTurn(maxSize, Step(maxSize, s, es[0]).value, es[1..]);
    }
  }

  // ---------- a clean stop ----------

  /** Nothing is added once Stop has begun. */
  predicate QuietAfterStop(es: seq<Event>) {
    forall i, j :: 0 <= i < j < |es| && es[i] == CloseStop ==> !es[j].Append?
  }

  predicate AllSavesOk(es: seq<Event>) {
    forall i :: 0 <= i < |es| && es[i].Save? ==> es[i].ok
  }

  lemma {:induction false} NoErrorNoFailure(maxSize: int, s: State, es: seq<Event>)
    requires AllSavesOk(es) && Run(maxSize, s, es).Some?
    requires forall i :: 0 <= i < |s.batches| ==> !s.batches[i].failed
    ensures var t := Run(maxSize, s, es).value; forall i :: 0 <= i < |t.batches| ==> !t.batches[i].failed
    decreases |es|
  {
    if es != [] {
      assert forall i :: 0 <= i < |es[1..]| ==> es[1..][i] == es[i + 1];
      NoErrorNoFailure(maxSize, Step(maxSize, s, es[0]).value, es[1..]);
    }
  }

  /** Once Stop has begun and adds have ceased, the buffer is empty from the final drain on. */
  lemma {:induction false} QuietStopEmptiesBuffer(maxSize: int, s: State, es: seq<Event>)
    requires Run(maxSize, s, es).Some? && QuietAfterStop(es)
    requires s.stopper != Running ==> forall i :: 0 <= i < |es| ==> !es[i].Append?
    requires s.stopper.FinalFlush? || s.stopper.Stopped? ==> s.buffer == []
    ensures var t := Run(maxSize, s, es).value; t.stopper.FinalFlush? || t.stopper.Stopped? ==> t.buffer == []
    decreases |es|
  {
    if es != [] {
      assert forall i :: 0 <= i < |es[1..]| ==> es[1..][i] == es[i + 1];
      QuietStopEmptiesBuffer(maxSize, Step(maxSize, s, es[0]).value, es[1..]);
    }
  }

  /** With no save error and no add after Stop begins, what is missing when Stop returns is exactly what
      explicit flushes still hold; and if drains came in turn, the rest is in order. */
  lemma CleanStop(maxSize: int, es: seq<Event>)
    requires Run(maxSize, INIT, es).Some? && QuietAfterStop(es) && AllSavesOk(es)
    requires Run(maxSize, INIT, es).value.stopper == Stopped
    ensures var s := Run(maxSize, INIT, es).value;
            var flushesDone := forall i :: 0 <= i < |s.batches| && s.batches[i].flushed ==> s.batches[i].Finished();
            && (multiset(s.saved) == multiset(s.added) <==> flushesDone)
            && (DrainsInTurn(maxSize, INIT, es) ==> (s.saved == s.added <==> flushesDone))
  {
    hide DrainsInTurn, Prefixes, Items;
    NoErrorNoFailure(maxSize, INIT, es);
    QuietStopEmptiesBuffer(maxSize, INIT, es);
    StopSavesEverythingIff(maxSize, es);
    if DrainsInTurn(maxSize, INIT, es) {
      var s := Run(maxSize, INIT, es).value;
      InTurnIsOrdered(maxSize, es);
      ReachableInv(maxSize, es);
      StateSavedIff(maxSize, s);
    }
  }

  /** Without explicit flushes a clean stop saves all, in order. */
  lemma CleanStopSavesAll(maxSize: int, es: seq<Event>)
    requires ExplicitFlush !in es && Run(maxSize, INIT, es).Some? && QuietAfterStop(es) && AllSavesOk(es)
    requires Run(maxSize, INIT, es).value.stopper == Stopped
    ensures Run(maxSize, INIT, es).value.saved == Run(maxSize, INIT, es).value.added
  {
    NoFlushDrainsInTurn(maxSize, INIT, es);
    CleanStop(maxSize, es);
  }

  // ---------- nothing gets stuck ----------

  /** A tick, or a pending signal, makes a waiting runner take all that is buffered. */
  lemma RunnerIsTriggered(maxSize: int, s: State)
    requires s.runner == Waiting && s.buffer != []
    ensures var taken := s.batches + [Batch(s.buffer, 0, false, false)];
            && Run(maxSize, s, [Tick, RunnerDrain])
               == Some(s.(buffer := [], batches := taken, runner := Saving(|s.batches|)))
            && (s.signal ==>
                  Run(maxSize, s, [Receive, RunnerDrain])
                  == Some(s.(buffer := [], batches := taken, runner := Saving(|s.batches|), signal := false)))
  {
    RunTwo(maxSize, s, Tick, RunnerDrain);
    RunTwo(maxSize, s, Receive, RunnerDrain);
    assert [Tick] + [RunnerDrain] == [Tick, RunnerDrain] && [Receive] + [RunnerDrain] == [Receive, RunnerDrain];
  }

  ghost predicate Settled(bs: seq<Batch>) {
    forall i :: 0 <= i < |bs| ==> bs[i].Finished()
  }

  /** Only saves that succeed. */
  ghost predicate OnlySaves(es: seq<Event>) {
    forall i :: 0 <= i < |es| ==> es[i].Save? && es[i].ok
  }

  /** The same but for what was saved. */
  ghost predicate SavedOnly(s: State, t: State) {
    && t == s.(batches := t.batches, saved := t.saved) && |t.batches| == |s.batches|
    && forall i :: 0 <= i < |s.batches| ==>
         && t.batches[i].items == s.batches[i].items && t.batches[i].failed == s.batches[i].failed
         && t.batches[i].flushed == s.batches[i].flushed && (s.batches[i].Finished() ==> t.batches[i] == s.batches[i])
  }

  function Left(bs: seq<Batch>): nat {
    if bs == [] then 0
    else
      var b := bs[|bs| - 1];
      Left(bs[..|bs| - 1]) + if b.saved < |b.items| then |b.items| - b.saved else 0
  }

  lemma {:induction false} LeftShrinks(bs: seq<Batch>, i: nat)
    requires i < |bs| && bs[i].saved < |bs[i].items|
    ensures Left(bs[i := bs[i].(saved := bs[i].saved + 1)]) < Left(bs)
  {
    var n, b := |bs| - 1, bs[i].(saved := bs[i].saved + 1);
    if i < n {
      assert bs[i := b][..n] == bs[..n][i := b];
      LeftShrinks(bs[..n], i);
    } else {
      assert bs[i := b][..n] == bs[..n];
    }
  }

  /** Whatever is being saved can be saved to its end. */
  lemma {:induction false} CanSettle(maxSize: int, s: State) returns (es: seq<Event>, t: State)
    ensures OnlySaves(es) && Run(maxSize, s, es) == Some(t) && SavedOnly(s, t) && Settled(t.batches)
    decreases Left(s.batches)
  {
    if Settled(s.batches) {
      es, t := [], s;
    } else {
      var id :| 0 <= id < |s.batches| && !s.batches[id].Finished();
      var u := Step(maxSize, s, Save(id, true)).value;
      LeftShrinks(s.batches, id);
      es, t := CanSettle(maxSize, u);
      es := [Save(id, true)] + es;
      assert es[1..] == es[1..] && es[0] == Save(id, true);
    }
  }

  /** Known batches are what the runner and Stop are saving. */
  ghost predicate KnownBatches(s: State) {
    && (s.runner.Saving? ==> s.runner.id < |s.batches|)
    && (s.stopper.FinalFlush? ==> s.stopper.id < |s.batches|)
  }

  lemma {:induction false} RunKeepsKnown(maxSize: int, s: State, es: seq<Event>)
    requires KnownBatches(s) && Run(maxSize, s, es).Some?
    ensures KnownBatches(Run(maxSize, s, es).value)
    decreases |es|
  {
    if es != [] {
      var t := Step(maxSize, s, es[0]).value;
      assert |t.batches| >= |s.batches| && KnownBatches(t);
      RunKeepsKnown(maxSize, t, es[1..]);
    }
  }

  /** The runner's and Stop's own steps, with saves that succeed; no Add and no explicit Flush. */
  ghost predicate OwnSteps(es: seq<Event>) {
    forall i :: 0 <= i < |es| ==> !es[i].Append? && !es[i].ExplicitFlush? && (es[i].Save? ==> es[i].ok)
  }

  lemma OwnConcat(maxSize: int, s: State, es: seq<Event>, t: State, fs: seq<Event>, u: State)
    requires Run(maxSize, s, es) == Some(t) && Run(maxSize, t, fs) == Some(u) && OwnSteps(es) && OwnSteps(fs)
    ensures Run(maxSize, s, es + fs) == Some(u) && OwnSteps(es + fs)
  {
    RunConcat(maxSize, s, es, fs);
  }

  lemma OneStep(maxSize: int, s: State, e: Event)
    ensures Run(maxSize, s, [e]) == Step(maxSize, s, e)
  {
    RunTwo(maxSize, s, e, e);
  }

  /** A runner that has not returned can come back to waiting with everything saved that was in flight. */
  lemma CanComeHome(maxSize: int, s: State) returns (es: seq<Event>, t: State)
    requires KnownBatches(s) && s.runner != Exited
    ensures OwnSteps(es) && Run(maxSize, s, es) == Some(t) && t.runner == Waiting && Settled(t.batches)
    ensures t.stopper == s.stopper && t.added == s.added && KnownBatches(t)
    ensures s.runner == Woken ==> t.buffer == []
    ensures s.runner != Woken ==> t.buffer == s.buffer
  {
    es, t := CanSettle(maxSize, s);
    if t.runner == Woken {
      var u := Step(maxSize, t, RunnerDrain).value;
      OneStep(maxSize, t, RunnerDrain);
      OwnConcat(maxSize, s, es, t, [RunnerDrain], u);
      es, t := es + [RunnerDrain], u;
      var fs, v := CanSettle(maxSize, t);
      OwnConcat(maxSize, s, es, t, fs, v);
      es, t := es + fs, v;
    }
    if t.runner.Saving? {
      var u := Step(maxSize, t, RunnerReturn).value;
      OneStep(maxSize, t, RunnerReturn);
      OwnConcat(maxSize, s, es, t, [RunnerReturn], u);
      es, t := es + [RunnerReturn], u;
    }
  }

  /** From every reachable state before Stop, and without any further Add or signal, the batcher can save all
      that was added: the next tick leads there if no save fails. */
  lemma CanFlushAll(maxSize: int, before: seq<Event>) returns (es: seq<Event>, t: State)
    requires Run(maxSize, INIT, before).Some? && Run(maxSize, INIT, before).value.runner != Exited
    ensures OwnSteps(es) && Run(maxSize, Run(maxSize, INIT, before).value, es) == Some(t)
    ensures t.buffer == [] && Settled(t.batches) && t.runner == Waiting
    ensures t.added == Run(maxSize, INIT, before).value.added && t.stopper == Run(maxSize, INIT, before).value.stopper
  {
    var s := Run(maxSize, INIT, before).value;
    RunKeepsKnown(maxSize, INIT, before);
    hide *;
    es, t := CanComeHome(maxSize, s);
    var woken := t.(runner := Woken);
    TickWakes(maxSize, t);
    OneStep(maxSize, t, Tick);
    OnlyTick();
    OwnConcat(maxSize, s, es, t, [Tick], woken);
    es := es + [Tick];
    var fs, u := CanComeHome(maxSize, woken);
    OwnConcat(maxSize, s, es, woken, fs, u);
    es, t := es + fs, u;
  }

  lemma TickWakes(maxSize: int, t: State)
    requires t.runner == Waiting && KnownBatches(t)
    ensures Step(maxSize, t, Tick) == Some(t.(runner := Woken)) && KnownBatches(t.(runner := Woken))
  {
  }

  lemma OnlyTick()
    ensures OwnSteps([Tick])
  {
  }

  /** And Stop can always finish: from every reachable state before it there is a run in which it returns with
      nothing left, so that everything was saved unless a save had failed before. */
  lemma CanStop(maxSize: int, before: seq<Event>) returns (es: seq<Event>, t: State)
    requires Run(maxSize, INIT, before).Some? && Run(maxSize, INIT, before).value.stopper == Running
    ensures OwnSteps(es) && Run(maxSize, Run(maxSize, INIT, before).value, es) == Some(t)
    ensures t.stopper == Stopped && t.buffer == [] && Settled(t.batches)
    ensures t.added == Run(maxSize, INIT, before).value.added
  {
    var s := Run(maxSize, INIT, before).value;
    ReachableInv(maxSize, before);
    assert s.runner != Exited;
    es, t := CanFlushAll(maxSize, before);
    hide Run;
    var fs, u := StopFrom(maxSize, t);
    OwnConcat(maxSize, s, es, t, fs, u);
    es, t := es + fs, u;
  }

  lemma StopFrom(maxSize: int, s: State) returns (es: seq<Event>, t: State)
    requires s.stopper == Running && s.runner == Waiting && s.buffer == [] && Settled(s.batches)
    ensures OwnSteps(es) && Run(maxSize, s, es) == Some(t)
    ensures t.stopper == Stopped && t.buffer == [] && Settled(t.batches) && t.added == s.added
  {
    es := [CloseStop, RunnerExit, FinalDrain, StopReturn];
    var closed := s.(stopper := Closed);
    var exited := closed.(runner := Exited);
    var drained := Drained(exited, false).(stopper := FinalFlush(|s.batches|));
    t := drained.(stopper := Stopped);
    RunTwo(maxSize, s, CloseStop, RunnerExit);
    RunTwo(maxSize, exited, FinalDrain, StopReturn);
    OwnConcat(maxSize, s, [CloseStop] + [RunnerExit], exited, [FinalDrain] + [StopReturn], t);
    assert [CloseStop] + [RunnerExit] + ([FinalDrain] + [StopReturn]) == es;
  }

  // ---------- an explicit flush in flight ----------

  /** What each Add owes when the buffer holds one item. */
  function Owes(maxSize: int): nat {
    if 1 >= maxSize then 1 else 0
  }

  /** A run in which Stop has drained and saved b while an explicit flush still holds a. */
  lemma FlushInFlight(maxSize: int, a: Item, b: Item) returns (es: seq<Event>, s: State)
    ensures Run(maxSize, INIT, es) == Some(s) && QuietAfterStop(es) && AllSavesOk(es)
    ensures s.added == [a, b] && s.saved == [b] && s.stopper == FinalFlush(1)
    ensures s.batches == [Batch([a], 0, false, true), Batch([b], 1, false, false)]
    ensures forall i :: 0 <= i < |es| && es[i] == CloseStop ==> i == 3
    ensures |es| == 7
  {
    es, s := [], INIT;
    var more, states := HeldEvents(a, b), HeldStates(maxSize, a, b);
    assert more == HeldEvents(a, b) && states == HeldStates(maxSize, a, b);
    hide HeldEvents, HeldStates, Step;
    var i := 0;
    assert Run(maxSize, INIT, []) == Some(INIT);
    assert more[..0] == es;
    while i < 7
      invariant 0 <= i <= 7 && es == more[..i] && Run(maxSize, INIT, es) == Some(s) && s == states[i]
    {
      RunSnoc(maxSize, INIT, es, s, more[i]);
      HeldStep(maxSize, a, b, i);
      s := states[i + 1];
      es := es + [more[i]];
      i := i + 1;
    }
    assert es == more;
  }

  function HeldStates(maxSize: int, a: Item, b: Item): (states: seq<State>)
    ensures |states| == 8
  {
    var owes := Owes(maxSize);
    var held, last := Batch([a], 0, false, true), Batch([b], 0, false, false);
    var one := INIT.(added := [a], senders := owes);
    var two := INIT.(added := [a, b], senders := 2 * owes, buffer := [b], batches := [held]);
    var closed := two.(stopper := Closed, runner := Exited);
    [INIT, one.(buffer := [a]), one.(batches := [held]), two, two.(stopper := Closed), closed,
     closed.(buffer := [], batches := [held, last], stopper := FinalFlush(1)),
     closed.(buffer := [], batches := [held, last.(saved := 1)], stopper := FinalFlush(1), saved := [b])]
  }

  function HeldEvents(a: Item, b: Item): (es: seq<Event>)
    ensures |es| == 7
  {
    [Append(a), ExplicitFlush, Append(b), CloseStop, RunnerExit, FinalDrain, Save(1, true)]
  }

  lemma HeldStep(maxSize: int, a: Item, b: Item, i: nat)
    requires i < 7
    ensures Step(maxSize, HeldStates(maxSize, a, b)[i], HeldEvents(a, b)[i]) == Some(HeldStates(maxSize, a, b)[i + 1])
  {
    var held, last := Batch([a], 0, false, true), Batch([b], 0, false, false);
    assert [] + [a] == [a] && [] + [b] == [b] && [a] + [b] == [a, b];
    assert [] + [held] == [held] && [held] + [last] == [held, last];
    assert [held, last][1 := last.(saved := 1)] == [held, last.(saved := 1)];
  }

  /** An explicit flush in flight loses both guarantees, whatever the batch size: Stop may return before
      its items are saved, and they may be saved after later ones. */
  lemma FlushBreaksGuarantees(maxSize: int, a: Item, b: Item)
    requires a != b
    ensures exists es :: (
      && QuietAfterStop(es) && AllSavesOk(es) && Run(maxSize, INIT, es).Some?
      && var s := Run(maxSize, INIT, es).value; s.stopper == Stopped && s.added == [a, b] && s.saved == [b])
    ensures exists es :: Run(maxSize, INIT, es).Some? && Run(maxSize, INIT, es).value.saved == [b, a]
                      && Run(maxSize, INIT, es).value.added == [a, b]
  {
    var es, s := FlushInFlight(maxSize, a, b);
    RunSnoc(maxSize, INIT, es, s, StopReturn);
    RunSnoc(maxSize, INIT, es, s, Save(0, true));
    var stopped, late := es + [StopReturn], es + [Save(0, true)];
    assert QuietAfterStop(stopped) && AllSavesOk(stopped);
    assert Run(maxSize, INIT, stopped).value.saved == [b];
    assert Run(maxSize, INIT, late).value.saved == [b, a];
  }
}
