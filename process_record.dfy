/** The process record `Proceso` of the simulator. */
module ProcessRecord {

  /** The `estado` tag of a record: "LISTO", "EJECUTANDO" or "TERMINADO". */
  datatype Estado = Listo | Ejecutando | Terminado

  /**
   * One process record. Times are ticks of the scheduler clock; -1 in
   * `tiempoInicio` or `tiempoFinalizacion` means "not yet".
   */
  datatype Proceso = Proceso(
    idProceso: int,
    tiempoRequerido: int,
    tiempoRestante: int,
    tiempoLlegada: int,
    tiempoInicio: int,
    tiempoFinalizacion: int,
    estado: Estado)

  /** A record that is consistent with the clock `ahora`. */
  ghost predicate ValidRecord(p: Proceso, ahora: int)
  {
    && p.tiempoRequerido > 0
    && 0 <= p.tiempoRestante <= p.tiempoRequerido
    && 0 <= p.tiempoLlegada <= ahora
    && p.estado != Ejecutando
    && (p.tiempoRestante == 0 ==> p.estado == Terminado)
    && (p.estado == Terminado <==> p.tiempoFinalizacion != -1)
    // the start time is set exactly when some service has been given
    && (p.tiempoInicio != -1 <==> p.tiempoRestante < p.tiempoRequerido)
    && (p.tiempoInicio != -1 ==> p.tiempoLlegada <= p.tiempoInicio <= ahora)
    && (p.tiempoFinalizacion != -1 ==> p.tiempoLlegada <= p.tiempoFinalizacion <= ahora)
    // service received fits between the first dispatch and now / the finish
    && (p.tiempoInicio != -1 ==> p.tiempoRequerido - p.tiempoRestante <= ahora - p.tiempoInicio)
    && (p.tiempoInicio != -1 && p.tiempoFinalizacion != -1 ==>
          p.tiempoRequerido - p.tiempoRestante <= p.tiempoFinalizacion - p.tiempoInicio)
  }

  /**
   * The constructor `Proceso(id, tiempo, llegada)`: a ready record that has
   * received no service yet; consistent with the clock at its arrival.
   */
  function NuevoProceso(id: int, tiempo: int, llegada: int): (p: Proceso)
    ensures p.idProceso == id && p.estado == Listo
    ensures p.tiempoRestante == p.tiempoRequerido
    ensures tiempo > 0 && llegada >= 0 ==> ValidRecord(p, llegada)
  {
    Proceso(id, tiempo, tiempo, llegada, -1, -1, Listo)
  }
}
