/** Properties of the Round-Robin state machine of module RoundRobin. */
module RoundRobinProps {
  import opened Common
  import opened ProcessRecord
  import opened RoundRobin

  /**
   * `crear_proceso` hands out the next id, which was not in use; the new record
   * is ready, has not started or finished, still needs all of its time, arrived
   * at the current clock and waits at the tail of the queue; nothing else moves.
   */
  lemma CreateFreshRecord(s: RRState, tiempo: int)
    requires Valid(s) && tiempo > 0
    ensures var (r, id) := Create(s, tiempo);
      && Valid(r)
      && id !in s.procesos && id in r.procesos
      && r.procesos[id].idProceso == id
      && r.procesos[id].estado == Listo
      && r.procesos[id].tiempoRequerido == tiempo
      && r.procesos[id].tiempoRestante == tiempo
      && r.procesos[id].tiempoLlegada == s.tiempoActual
      && r.procesos[id].tiempoInicio == -1 && r.procesos[id].tiempoFinalizacion == -1
      && r.colaListos == s.colaListos + [id]
      && (forall other | other in s.procesos :: r.procesos[other] == s.procesos[other])
  {
  }

  /** A record stays consistent while the clock only moves forward. */
  lemma ValidRecordLater(p: Proceso, ahora: int, despues: int)
    requires ValidRecord(p, ahora) && ahora <= despues
    ensures ValidRecord(p, despues)
  {
  }

  /** The tail of a queue without duplicates, and the same tail with its old head appended. */
  lemma RotateQueue(cola: seq<int>)
    requires NoDuplicates(cola) && cola != []
    ensures NoDuplicates(cola[1..]) && NoDuplicates(cola[1..] + [cola[0]])
    ensures cola[0] !in cola[1..]
    ensures forall x | x in cola && x != cola[0] :: x in cola[1..]
  {
  }

  /** The dispatched record is consistent with the advanced clock. */
  lemma DispatchedRecordValid(s: RRState, q: int)
    requires Valid(s) && q > 0 && s.colaListos != []
    requires s.procesos[s.colaListos[0]].estado != Terminado
    ensures var id := s.colaListos[0];
      var r := Step(s, q);
      r.procesos[id].idProceso == id && ValidRecord(r.procesos[id], r.tiempoActual)
  {
  }

  /** One step with a positive quantum keeps the invariant. */
  lemma StepPreservesValid(s: RRState, q: int)
    requires Valid(s) && q > 0
    ensures Valid(Step(s, q))
  {
    var r := Step(s, q);
    if s.colaListos != [] {
      var id := s.colaListos[0];
      RotateQueue(s.colaListos);
      forall x | x in s.procesos && x != id
        ensures r.procesos[x].idProceso == x && ValidRecord(r.procesos[x], r.tiempoActual)
      {
        ValidRecordLater(s.procesos[x], s.tiempoActual, r.tiempoActual);
      }
      if s.procesos[id].estado != Terminado {
        DispatchedRecordValid(s, q);
        assert forall x | x in s.colaListos[1..] :: x in s.colaListos[1..] + [id];
      }
    } else {
      forall x | x in s.procesos
        ensures ValidRecord(r.procesos[x], r.tiempoActual)
      {
        ValidRecordLater(s.procesos[x], s.tiempoActual, r.tiempoActual);
      }
    }
  }

  /** Any number of steps with a positive quantum keeps the invariant. */
  lemma {:induction false} StepsPreserveValid(s: RRState, q: int, n: nat)
    requires Valid(s) && q > 0
    ensures Valid(Steps(s, q, n))
    decreases n
  {
    if n > 0 {
      StepsPreserveValid(s, q, n - 1);
      StepPreservesValid(Steps(s, q, n - 1), q);
    }
  }

  /** A step on an empty queue idles: the clock advances by one, nothing else changes. */
  lemma StepIdle(s: RRState, q: int)
    requires QueueInTable(s) && s.colaListos == []
    ensures Step(s, q).tiempoActual == s.tiempoActual + 1
    ensures Step(s, q).procesos == s.procesos && Step(s, q).colaListos == []
  {
  }

  /**
   * A stale queue entry (the process was finished by `terminar` while queued)
   * is dropped without advancing the clock or touching any record.
   */
  lemma StepDropsFinished(s: RRState, q: int)
    requires QueueInTable(s) && s.colaListos != []
    requires s.procesos[s.colaListos[0]].estado == Terminado
    ensures Step(s, q).colaListos == s.colaListos[1..]
    ensures Step(s, q).tiempoActual == s.tiempoActual && Step(s, q).procesos == s.procesos
  {
  }

  /**
   * A dispatch runs the head for `trabajo` = min(q, remaining) > 0 units: the
   * clock and the remaining time move by the same amount, the start is set on
   * the first dispatch only, and the process then either finishes now and
   * leaves the queue or is ready again at the tail.
   */
  lemma StepDispatch(s: RRState, q: int)
    requires Valid(s) && q > 0 && s.colaListos != []
    requires s.procesos[s.colaListos[0]].estado != Terminado
    ensures var id := s.colaListos[0];
      var p := s.procesos[id];
      var r := Step(s, q);
      var p' := r.procesos[id];
      var trabajo := r.tiempoActual - s.tiempoActual;
      && trabajo == Min(q, p.tiempoRestante) && 0 < trabajo <= q
      && p'.tiempoRestante == p.tiempoRestante - trabajo
      && 0 <= p'.tiempoRestante <= p'.tiempoRequerido
      && p'.tiempoInicio == (if p.tiempoInicio == -1 then s.tiempoActual else p.tiempoInicio)
      && (p'.tiempoRestante == 0 ==>
            p'.estado == Terminado && p'.tiempoFinalizacion == r.tiempoActual
            && r.colaListos == s.colaListos[1..])
      && (p'.tiempoRestante > 0 ==>
            p'.estado == Listo && p'.tiempoFinalizacion == -1
            && r.colaListos == s.colaListos[1..] + [id])
  {
  }

  /** A step never moves the clock back, and forward by at most one quantum. */
  lemma StepClock(s: RRState, q: int)
    requires Valid(s) && q > 0
    ensures s.tiempoActual <= Step(s, q).tiempoActual <= s.tiempoActual + q
  {
  }

  /** No record owes negative time. */
  ghost predicate RemainingNonNegative(s: RRState)
  {
    forall id | id in s.procesos :: s.procesos[id].tiempoRestante >= 0
  }

  /** A step keeps remaining times non-negative and does not move the clock back. */
  lemma StepForward(s: RRState, q: int)
    requires QueueInTable(s) && RemainingNonNegative(s) && q > 0
    ensures RemainingNonNegative(Step(s, q)) && s.tiempoActual <= Step(s, q).tiempoActual
  {
  }

  /** `ejecutar(n)` moves the clock forward by at most n quanta. */
  lemma {:induction false} StepsClockBound(s: RRState, q: int, n: nat)
    requires QueueInTable(s) && q > 0
    ensures Steps(s, q, n).tiempoActual <= s.tiempoActual + n * q
    decreases n
  {
    if n > 0 {
      StepsClockBound(s, q, n - 1);
      assert (n - 1) * q + q == n * q;
    }
  }

  /** `ejecutar(n)` never moves the clock back. */
  lemma {:induction false} StepsClockMonotone(s: RRState, q: int, n: nat)
    requires QueueInTable(s) && RemainingNonNegative(s) && q > 0
    ensures RemainingNonNegative(Steps(s, q, n))
    ensures s.tiempoActual <= Steps(s, q, n).tiempoActual
    decreases n
  {
    if n > 0 {
      StepsClockMonotone(s, q, n - 1);
      StepForward(Steps(s, q, n - 1), q);
    }
  }

  /** A start time, once set, is never overwritten by later steps. */
  lemma {:induction false} StartSetOnce(s: RRState, q: int, n: nat, id: int)
    requires QueueInTable(s) && id in s.procesos && s.procesos[id].tiempoInicio != -1
    ensures id in Steps(s, q, n).procesos
    ensures Steps(s, q, n).procesos[id].tiempoInicio == s.procesos[id].tiempoInicio
    decreases n
  {
    if n > 0 {
      StartSetOnce(s, q, n - 1, id);
    }
  }

  /** A finished record is left exactly as it is by later steps. */
  lemma {:induction false} FinishedStaysFinished(s: RRState, q: int, n: nat, id: int)
    requires QueueInTable(s) && id in s.procesos && s.procesos[id].estado == Terminado
    ensures id in Steps(s, q, n).procesos && Steps(s, q, n).procesos[id] == s.procesos[id]
    decreases n
  {
    if n > 0 {
      FinishedStaysFinished(s, q, n - 1, id);
    }
  }

  /** Every process that is ready waits in the queue exactly once. */
  lemma ReadyQueuedOnce(s: RRState, id: int)
    requires Valid(s) && id in s.procesos && s.procesos[id].estado == Listo
    ensures multiset(s.colaListos)[id] == 1
  {
    NoDuplicatesOccursOnce(s.colaListos, id);
  }

  /** `terminar` on an unknown id leaves table, queue and clock alone. */
  lemma KillUnknown(s: RRState, id: int)
    requires id !in s.procesos
    ensures Kill(s, id) == s
  {
  }

  /** `terminar` on a known id marks it finished at the current clock and keeps the invariant. */
  lemma KillKnown(s: RRState, id: int)
    requires Valid(s) && id in s.procesos
    ensures Valid(Kill(s, id))
    ensures Kill(s, id).procesos[id] ==
              s.procesos[id].(estado := Terminado, tiempoFinalizacion := s.tiempoActual)
  {
  }

  /** `terminar` keeps the invariant whatever the id. */
  lemma KillPreservesValid(s: RRState, id: int)
    requires Valid(s)
    ensures Valid(Kill(s, id))
  {
    if id in s.procesos {
      KillKnown(s, id);
    }
  }

  /** Killing the same process twice in a row is the same as killing it once. */
  lemma KillTwice(s: RRState, id: int)
    ensures Kill(Kill(s, id), id) == Kill(s, id)
  {
  }

  /**
   * A finished process spent at least its received service between arrival and
   * finish, so its wait (turnaround minus demand) is at least minus its unserved
   * time; in particular it is never negative for a process that ran to the end.
   */
  lemma FinishedTurnaround(s: RRState, id: int)
    requires Valid(s) && id in s.procesos && s.procesos[id].tiempoFinalizacion != -1
    ensures var p := s.procesos[id];
      && p.tiempoFinalizacion - p.tiempoLlegada >= p.tiempoRequerido - p.tiempoRestante
      && p.tiempoFinalizacion - p.tiempoLlegada - p.tiempoRequerido >= -p.tiempoRestante
  {
  }

  /**
   * Tally counts nobody exactly when no record among ids 1 .. n - 1 has finished,
   * and then both sums are zero: unfinished records add nothing.
   */
  lemma {:induction false} TallyEmpty(procesos: map<int, Proceso>, n: int)
    ensures Tally(procesos, n).finalizados == 0 <==>
      forall id | id in procesos && 1 <= id < n :: procesos[id].tiempoFinalizacion == -1
    ensures (forall id | id in procesos && 1 <= id < n :: procesos[id].tiempoFinalizacion == -1) ==>
      Tally(procesos, n) == Metrics(0, 0, 0)
    decreases n
  {
    if n > 1 {
      TallyEmpty(procesos, n - 1);
    }
  }

  /** `estatisticas` reports nothing exactly when no process has finished. */
  lemma StatsNoneIffNoneFinished(s: RRState)
    requires Valid(s)
    ensures Stats(s).None? <==>
      forall id | id in s.procesos :: s.procesos[id].tiempoFinalizacion == -1
  {
    TallyEmpty(s.procesos, s.sigIdProceso);
  }

  /** The ids among 1 .. n - 1 whose record has a finish time. */
  ghost function FinishedIds(procesos: map<int, Proceso>, n: int): set<int>
  {
    set id | id in procesos && 1 <= id < n && procesos[id].tiempoFinalizacion != -1
  }

  /** Tally counts every finished record among ids 1 .. n - 1, and only those. */
  lemma {:induction false} TallyCountsFinished(procesos: map<int, Proceso>, n: int)
    ensures Tally(procesos, n).finalizados == |FinishedIds(procesos, n)|
    decreases n
  {
    if n <= 1 {
      assert FinishedIds(procesos, n) == {};
    } else {
      TallyCountsFinished(procesos, n - 1);
      var id := n - 1;
      if id in procesos && procesos[id].tiempoFinalizacion != -1 {
        assert FinishedIds(procesos, n) == FinishedIds(procesos, n - 1) + {id};
      } else {
        assert FinishedIds(procesos, n) == FinishedIds(procesos, n - 1);
      }
    }
  }

  /** `estatisticas` counts every process of the table that has finished. */
  lemma StatsCountsFinished(s: RRState)
    requires Valid(s)
    ensures var fin := set id | id in s.procesos && s.procesos[id].tiempoFinalizacion != -1;
      && (Stats(s).Some? <==> |fin| > 0)
      && (Stats(s).Some? ==> Stats(s).value.finalizados == |fin|)
  {
    TallyCountsFinished(s.procesos, s.sigIdProceso);
    assert FinishedIds(s.procesos, s.sigIdProceso) ==
      set id | id in s.procesos && s.procesos[id].tiempoFinalizacion != -1;
  }

  /** What one id adds to the sums of `estatisticas`: nothing unless it has finished. */
  ghost function Share(procesos: map<int, Proceso>, id: int): Metrics
  {
    if id in procesos && procesos[id].tiempoFinalizacion != -1 then
      var p := procesos[id];
      Metrics(p.tiempoFinalizacion - p.tiempoLlegada - p.tiempoRequerido,
              p.tiempoFinalizacion - p.tiempoLlegada, 1)
    else Metrics(0, 0, 0)
  }

  /** Tally over ids 1 .. n - 1 does not look at a record with a larger id. */
  lemma {:induction false} TallyIgnoresLater(procesos: map<int, Proceso>, id: int, p: Proceso, n: int)
    requires id >= n
    ensures Tally(procesos[id := p], n) == Tally(procesos, n)
    decreases n
  {
    if n > 1 {
      TallyIgnoresLater(procesos, id, p, n - 1);
    }
  }

  /**
   * Replacing one record among ids 1 .. n - 1 changes each sum by exactly the
   * new record's share minus the old one's: every finished record is summed once.
   */
  lemma {:induction false} TallyUpdate(procesos: map<int, Proceso>, id: int, p: Proceso, n: int)
    requires 1 <= id < n
    ensures var before := Tally(procesos, n);
      var after := Tally(procesos[id := p], n);
      var o := Share(procesos, id);
      var w := Share(procesos[id := p], id);
      && after.esperaTotal == before.esperaTotal - o.esperaTotal + w.esperaTotal
      && after.retornoTotal == before.retornoTotal - o.retornoTotal + w.retornoTotal
      && after.finalizados == before.finalizados - o.finalizados + w.finalizados
    decreases n
  {
    if id == n - 1 {
      TallyIgnoresLater(procesos, id, p, n - 1);
    } else {
      TallyUpdate(procesos, id, p, n - 1);
    }
  }

  /**
   * `terminar` on a process that has not finished yet makes `estatisticas`
   * report one more process, whose turnaround is the current clock minus its
   * arrival and whose wait is that minus its demand.
   */
  lemma StatsAfterKill(s: RRState, id: int)
    requires Valid(s) && id in s.procesos && s.procesos[id].tiempoFinalizacion == -1
    ensures var m := Tally(s.procesos, s.sigIdProceso);
      var p := s.procesos[id];
      var retorno := s.tiempoActual - p.tiempoLlegada;
      Stats(Kill(s, id)) ==
        Some(Metrics(m.esperaTotal + retorno - p.tiempoRequerido, m.retornoTotal + retorno, m.finalizados + 1))
  {
    var p := s.procesos[id];
    TallyUpdate(s.procesos, id, p.(estado := Terminado, tiempoFinalizacion := s.tiempoActual), s.sigIdProceso);
  }

  /** Records that demand at least one unit each: total wait + count <= total turnaround. */
  lemma {:induction false} TallyWaitBelowTurnaround(procesos: map<int, Proceso>, n: int)
    requires forall id | id in procesos :: procesos[id].tiempoRequerido > 0
    ensures Tally(procesos, n).esperaTotal + Tally(procesos, n).finalizados
            <= Tally(procesos, n).retornoTotal
    decreases n
  {
    if n > 1 {
      TallyWaitBelowTurnaround(procesos, n - 1);
    }
  }

  /** Over consistent records that all ran to the end, the total wait is not negative. */
  lemma {:induction false} TallyWaitNonNegative(procesos: map<int, Proceso>, ahora: int, n: int)
    requires forall id | id in procesos :: ValidRecord(procesos[id], ahora)
    requires forall id | id in procesos && procesos[id].tiempoFinalizacion != -1 ::
               procesos[id].tiempoRestante == 0
    ensures Tally(procesos, n).esperaTotal >= 0
    decreases n
  {
    if n > 1 {
      TallyWaitNonNegative(procesos, ahora, n - 1);
    }
  }

  /** The four dispatches of `TwoEqualJobs`: both records end finished. */
  lemma TwoEqualJobsRun()
    ensures var s2 := Create(Create(Initial(), 4).0, 4).0;
      var r := Steps(s2, 2, 4);
      && FinishedPair(r.procesos)
      && r.tiempoActual == 8 && r.colaListos == [] && r.sigIdProceso == 3
  {
    var s0 := Initial();
    assert s0 == RRState(map[], [], 0, 1);
    var s1 := Create(s0, 4).0;
    var s2 := Create(s1, 4).0;
    assert s2.colaListos == [1, 2];
    var a := Step(s2, 2);
    assert a.colaListos == [2, 1] && a.tiempoActual == 2;
    var b := Step(a, 2);
    assert b.colaListos == [1, 2] && b.tiempoActual == 4;
    var c := Step(b, 2);
    assert c.colaListos == [2] && c.tiempoActual == 6;
    var d := Step(c, 2);
    assert d.colaListos == [] && d.tiempoActual == 8;
    assert Steps(s2, 2, 4) == d;
  }

  /** Ids 1 and 2 arrived at 0, needed 4 units, and finished at 6 and 8. */
  ghost predicate FinishedPair(procs: map<int, Proceso>)
  {
    && 1 in procs && 2 in procs
    && procs[1].tiempoLlegada == 0 && procs[1].tiempoRequerido == 4
    && procs[2].tiempoLlegada == 0 && procs[2].tiempoRequerido == 4
    && procs[1].tiempoFinalizacion == 6 && procs[2].tiempoFinalizacion == 8
  }

  /** The sums `estatisticas()` reports for the table `TwoEqualJobsRun` ends with. */
  lemma TwoEqualJobsTally(procs: map<int, Proceso>)
    requires FinishedPair(procs)
    ensures Tally(procs, 3) == Metrics(6, 14, 2)
  {
    assert Tally(procs, 2) == Metrics(2, 6, 1);
  }

  /**
   * Quantum 2, two processes needing 4 units each, four steps: the first
   * finishes at tick 6, the second at tick 8 (a step is a dispatch, not a tick).
   */
  lemma TwoEqualJobs()
    ensures var s1 := Create(Initial(), 4).0;
      var s2 := Create(s1, 4).0;
      var r := Steps(s2, 2, 4);
      && r.procesos[1].tiempoFinalizacion == 6
      && r.procesos[2].tiempoFinalizacion == 8
      && r.tiempoActual == 8 && r.colaListos == []
      && Stats(r) == Some(Metrics(6, 14, 2))
  {
    TwoEqualJobsRun();
    TwoEqualJobsTally(Steps(Create(Create(Initial(), 4).0, 4).0, 2, 4).procesos);
  }
}
