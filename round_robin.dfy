/**
 * The Round-Robin scheduler `PlanificadorRR` as a state machine on values:
 * the process table, the ready queue of ids, the clock and the next id. The
 * class in module Scheduler is proved to perform exactly these transitions.
 */
module RoundRobin {
  import opened Common
  import opened ProcessRecord

  /**
   * `procesos` is the id-keyed table; `colaListos` holds ids that refer into
   * it (the `shared_ptr` aliasing of the queue and the table); `tiempoActual`
   * is the global clock; `sigIdProceso` the next id to hand out.
   */
  datatype RRState = RRState(
    procesos: map<int, Proceso>,
    colaListos: seq<int>,
    tiempoActual: int,
    sigIdProceso: int)

  /** Every queued id refers to a record of the table (no dangling pointer). */
  ghost predicate QueueInTable(s: RRState)
  {
    forall i | 0 <= i < |s.colaListos| :: s.colaListos[i] in s.procesos
  }

  /** The invariant the scheduler keeps between two public calls. */
  ghost predicate Valid(s: RRState)
  {
    && s.tiempoActual >= 0
    && s.sigIdProceso >= 1
    // ids are handed out sequentially from 1
    && (forall id :: id in s.procesos <==> 1 <= id < s.sigIdProceso)
    && (forall id | id in s.procesos ::
          s.procesos[id].idProceso == id && ValidRecord(s.procesos[id], s.tiempoActual))
    && QueueInTable(s)
    && NoDuplicates(s.colaListos)
    // every process that is still ready waits in the queue
    && (forall id | id in s.procesos && s.procesos[id].estado == Listo :: id in s.colaListos)
  }

  /** The state `PlanificadorRR(q)` starts in: no processes, clock 0, next id 1. */
  function Initial(): (s: RRState)
    ensures Valid(s)
    ensures |s.procesos| == 0 && |s.colaListos| == 0
  {
    RRState(map[], [], 0, 1)
  }

  /**
   * `crear_proceso(tiempo)`: a fresh record with the next id, arriving now,
   * is queued at the tail; the result is the new state and the id.
   */
  function Create(s: RRState, tiempo: int): (r: (RRState, int))
    ensures r.1 == s.sigIdProceso && r.0.sigIdProceso == s.sigIdProceso + 1
    ensures r.0.procesos.Keys == s.procesos.Keys + {r.1}
    ensures r.0.tiempoActual == s.tiempoActual
  {
    var id := s.sigIdProceso;
    var p := NuevoProceso(id, tiempo, s.tiempoActual);
    (RRState(s.procesos[id := p], s.colaListos + [id], s.tiempoActual, id + 1), id)
  }

  /**
   * One iteration of the loop of `ejecutar` with quantum `q`: idle one unit
   * when the queue is empty; otherwise pop the head, drop it if it is already
   * finished, or run it for min(q, remaining) units and then finish it or
   * queue it again at the tail. The "EJECUTANDO" tag the source sets during the
   * iteration is always overwritten before the iteration ends.
   */
  function Step(s: RRState, q: int): (r: RRState)
    requires QueueInTable(s)
    ensures QueueInTable(r)
    ensures r.sigIdProceso == s.sigIdProceso && r.procesos.Keys == s.procesos.Keys
    // only the record at the head of the queue can change
    ensures forall id | id in s.procesos && (s.colaListos == [] || id != s.colaListos[0]) ::
              r.procesos[id] == s.procesos[id]
    // a finished record is never touched again
    ensures forall id | id in s.procesos && s.procesos[id].estado == Terminado ::
              r.procesos[id] == s.procesos[id]
    // a start time, once set, is kept
    ensures forall id | id in s.procesos && s.procesos[id].tiempoInicio != -1 ::
              r.procesos[id].tiempoInicio == s.procesos[id].tiempoInicio
    // identity, demand and arrival of a record never change
    ensures forall id | id in s.procesos ::
              && r.procesos[id].idProceso == s.procesos[id].idProceso
              && r.procesos[id].tiempoRequerido == s.procesos[id].tiempoRequerido
              && r.procesos[id].tiempoLlegada == s.procesos[id].tiempoLlegada
  {
    if s.colaListos == [] then
      s.(tiempoActual := s.tiempoActual + 1)
    else
      var id := s.colaListos[0];
      var resto := s.colaListos[1..];
      var p := s.procesos[id];
      if p.estado == Terminado then
        s.(colaListos := resto)
      else
        var inicio := if p.tiempoInicio == -1 then s.tiempoActual else p.tiempoInicio;
        var trabajo := Min(q, p.tiempoRestante);
        var ahora := s.tiempoActual + trabajo;
        var restante := p.tiempoRestante - trabajo;
        if restante <= 0 then
          var p' := p.(tiempoInicio := inicio, tiempoRestante := restante,
                       tiempoFinalizacion := ahora, estado := Terminado);
          RRState(s.procesos[id := p'], resto, ahora, s.sigIdProceso)
        else
          var p' := p.(tiempoInicio := inicio, tiempoRestante := restante, estado := Listo);
          RRState(s.procesos[id := p'], resto + [id], ahora, s.sigIdProceso)
  }

  /** `ejecutar(n)` for n >= 0: n iterations of Step. */
  function Steps(s: RRState, q: int, n: nat): (r: RRState)
    requires QueueInTable(s)
    ensures QueueInTable(r)
    ensures r.sigIdProceso == s.sigIdProceso && r.procesos.Keys == s.procesos.Keys
    decreases n
  {
    if n == 0 then s else Step(Steps(s, q, n - 1), q)
  }

  /**
   * `terminar(id)`: a known process is marked finished now (whatever its
   * remaining time, and even if it had finished before); an unknown id
   * changes nothing. The record's queue entry, if any, stays behind.
   */
  function Kill(s: RRState, id: int): (r: RRState)
    ensures r.colaListos == s.colaListos && r.tiempoActual == s.tiempoActual
    ensures r.sigIdProceso == s.sigIdProceso && r.procesos.Keys == s.procesos.Keys
    ensures forall other | other in s.procesos && other != id :: r.procesos[other] == s.procesos[other]
  {
    if id in s.procesos then
      var p := s.procesos[id];
      s.(procesos := s.procesos[id := p.(estado := Terminado, tiempoFinalizacion := s.tiempoActual)])
    else
      s
  }

  /** `obtener_proceso(id)`: the record, or nothing for an unknown id. */
  function Lookup(s: RRState, id: int): (r: Option<Proceso>)
    requires Valid(s)
    ensures r.Some? <==> 1 <= id < s.sigIdProceso
    ensures r.Some? ==> r.value == s.procesos[id] && r.value.idProceso == id
  {
    if id in s.procesos then Some(s.procesos[id]) else None
  }

  /** The integer sums of `estatisticas`: total wait, total turnaround, count. */
  datatype Metrics = Metrics(esperaTotal: int, retornoTotal: int, finalizados: nat)

  /** The sums over the finished records among ids 1 .. n - 1, in ascending order. */
  function Tally(procesos: map<int, Proceso>, n: int): (r: Metrics)
    ensures r.finalizados <= if n > 1 then n - 1 else 0
    decreases n
  {
    if n <= 1 then Metrics(0, 0, 0)
    else
      var m := Tally(procesos, n - 1);
      var id := n - 1;
      if id in procesos && procesos[id].tiempoFinalizacion != -1 then
        var p := procesos[id];
        var retorno := p.tiempoFinalizacion - p.tiempoLlegada;
        var espera := retorno - p.tiempoRequerido;
        Metrics(m.esperaTotal + espera, m.retornoTotal + retorno, m.finalizados + 1)
      else
        m
  }

  /** `estatisticas()`: nothing while no process has finished, else the sums. */
  function Stats(s: RRState): (r: Option<Metrics>)
    ensures r.Some? ==> 0 < r.value.finalizados < s.sigIdProceso
  {
    var m := Tally(s.procesos, s.sigIdProceso);
    if m.finalizados == 0 then None else Some(m)
  }
}
