/**
 * The class `PlanificadorRR`: the scheduler object whose methods update its
 * fields in place. `CrearProceso`, `Ejecutar` and `Terminar` are proved to
 * perform the transition of module RoundRobin on the abstract state and to keep
 * the invariant; the helper `Paso` performs one step's transition only, and the
 * queries `Estadisticas` and `ObtenerProceso` are proved equal to their functions.
 */
module Scheduler {
  import opened Common
  import opened ProcessRecord
  import opened RoundRobin
  import RoundRobinProps

  class PlanificadorRR {
    /** Every record, keyed by id. */
    var procesos: map<int, Proceso>
    /** Ids of the ready processes, head first. */
    var colaListos: seq<int>
    /** The quantum. */
    const tiempoEjecucion: int
    /** The global clock. */
    var tiempoActual: int
    /** The next id to hand out. */
    var sigIdProceso: int

    /** The fields as a value of the state machine. */
    function State(): RRState
      reads this
    {
      RRState(procesos, colaListos, tiempoActual, sigIdProceso)
    }

    ghost predicate Valid()
      reads this
    {
      tiempoEjecucion > 0 && RoundRobin.Valid(State())
    }

    constructor (tiempoEjecucion: int)
      requires tiempoEjecucion > 0
      ensures this.tiempoEjecucion == tiempoEjecucion
      ensures State() == Initial() && Valid()
    {
      this.tiempoEjecucion := tiempoEjecucion;
      procesos := map[];
      colaListos := [];
      tiempoActual := 0;
      sigIdProceso := 1;
    }

    /** `crear_proceso`: the new record is queued and stored under the returned id. */
    method CrearProceso(tiempoRequerido: int) returns (id: int)
      requires Valid() && tiempoRequerido > 0
      modifies this
      ensures Valid()
      ensures (State(), id) == Create(old(State()), tiempoRequerido)
    {
      RoundRobinProps.CreateFreshRecord(State(), tiempoRequerido);
      var p := NuevoProceso(sigIdProceso, tiempoRequerido, tiempoActual);
      sigIdProceso := sigIdProceso + 1;
      colaListos := colaListos + [p.idProceso];
      procesos := procesos[p.idProceso := p];
      id := p.idProceso;
    }

    /** `ejecutar(pasos)`: `pasos` scheduling steps (none when `pasos` <= 0). */
    method Ejecutar(pasos: int)
      requires Valid()
      modifies this
      ensures Valid()
      ensures State() == Steps(old(State()), tiempoEjecucion, if pasos > 0 then pasos else 0)
    {
      var i := 0;
      while i < pasos
        invariant 0 <= i && (pasos > 0 ==> i <= pasos) && (pasos <= 0 ==> i == 0)
        invariant Valid()
        invariant State() == Steps(old(State()), tiempoEjecucion, i)
      {
        RoundRobinProps.StepPreservesValid(State(), tiempoEjecucion);
        Paso();
        i := i + 1;
      }
    }

    /** One iteration of the loop of `ejecutar`. */
    method Paso()
      requires QueueInTable(State())
      modifies this
      ensures State() == Step(old(State()), tiempoEjecucion)
    {
      if |colaListos| == 0 {
        tiempoActual := tiempoActual + 1;
        return;
      }
      var id := colaListos[0];
      colaListos := colaListos[1..];
      var p := procesos[id];
      if p.estado == Terminado {
        return;
      }
      p := p.(estado := Ejecutando);
      if p.tiempoInicio == -1 {
        p := p.(tiempoInicio := tiempoActual);
      }
      var trabajo := Min(tiempoEjecucion, p.tiempoRestante);
      tiempoActual := tiempoActual + trabajo;
      p := p.(tiempoRestante := p.tiempoRestante - trabajo);
      if p.tiempoRestante <= 0 {
        p := p.(estado := Terminado, tiempoFinalizacion := tiempoActual);
      } else {
        p := p.(estado := Listo);
        colaListos := colaListos + [id];
      }
      procesos := procesos[id := p];
    }

    /**
     * `estatisticas`: the integer sums and the count over the finished
     * processes, visiting the table in ascending id order.
     */
    method Estadisticas() returns (r: Option<Metrics>)
      requires Valid()
      ensures r == Stats(State())
      ensures r.None? <==> forall id | id in procesos :: procesos[id].tiempoFinalizacion == -1
    {
      var esperaTotal, ejecucionTotal := 0, 0;
      var finalizados: nat := 0;
      var id := 1;
      while id < sigIdProceso
        invariant 1 <= id <= sigIdProceso
        invariant Metrics(esperaTotal, ejecucionTotal, finalizados) == Tally(procesos, id)
      {
        var p := procesos[id];
        if p.tiempoFinalizacion != -1 {
          var tiempoRetorno := p.tiempoFinalizacion - p.tiempoLlegada;
          var tiempoEspera := tiempoRetorno - p.tiempoRequerido;
          esperaTotal := esperaTotal + tiempoEspera;
          ejecucionTotal := ejecucionTotal + tiempoRetorno;
          finalizados := finalizados + 1;
        }
        id := id + 1;
      }
      RoundRobinProps.StatsNoneIffNoneFinished(State());
      if finalizados == 0 {
        r := None;
      } else {
        r := Some(Metrics(esperaTotal, ejecucionTotal, finalizados));
      }
    }

    /** `terminar`: force-finish a known process now; an unknown id changes nothing. */
    method Terminar(idProceso: int)
      requires Valid()
      modifies this
      ensures Valid()
      ensures State() == Kill(old(State()), idProceso)
    {
      RoundRobinProps.KillPreservesValid(State(), idProceso);
      if idProceso in procesos {
        procesos := procesos[idProceso := procesos[idProceso].(estado := Terminado,
                                                             tiempoFinalizacion := tiempoActual)];
      }
    }

    /** `obtener_proceso`: the record with that id, or nothing. */
    function ObtenerProceso(idProceso: int): (r: Option<Proceso>)
      reads this
      requires Valid()
      ensures r.Some? <==> 1 <= idProceso < sigIdProceso
      ensures r.Some? ==> r.value == procesos[idProceso] && r.value.idProceso == idProceso
    {
      Lookup(State(), idProceso)
    }
  }
}
