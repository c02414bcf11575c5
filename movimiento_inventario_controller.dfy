/** Manual inventory movements. A movement of kind "Entrada" or "Ajuste"
    adds its quantity to the product's stock (a missing stock counting 0);
    a movement without a quantity is logged and changes no stock; any other
    kind with a quantity is refused. The movement and the stock change are
    saved together or not at all. */
module MovimientoInventarioController {
  import opened Common
  import opened Models
  import opened EmpresaDb
  import opened StockLedger

  /** The kinds this endpoint accepts with a quantity. */
  predicate IsIncrementKind(tipo: string) {
    tipo == "Entrada" || tipo == "Ajuste"
  }

  /** The movement the request maps to, stamped `now`. */
  function MovementFor(dto: CreateMovimientoInventarioDto, now: int): MovimientoInventario {
    MovimientoInventario(Some(now), dto.tipo, dto.cantidad, dto.referencia, dto.productoId, dto.usuarioId)
  }

  /** `PostMovimientoInventario` on tables `t`. Both ids are read with
      `.Value` before the checks, so a missing one throws. The created
      movement is identified by its position in the log. */
  function PostMovimientoInventarioSpec(t: Tables, dto: CreateMovimientoInventarioDto, now: int, saveFails: bool): Outcome {
    if dto.productoId.None? || dto.usuarioId.None? then
      Outcome(InternalError(InvalidOperationException), t)
    else if dto.productoId.value !in VisibleProductos(t.productos) || dto.usuarioId.value !in VisibleUsuarios(t.usuarios) then
      Outcome(BadRequest, t)
    else if dto.cantidad.Some? && !IsIncrementKind(dto.tipo) then
      Outcome(BadRequest, t)
    else if saveFails then
      Outcome(InternalError(StorageException), t)
    else
      var pid := dto.productoId.value;
      var p := t.productos[pid];
      var updated := if dto.cantidad.Some? then p.(stock := Some(p.stock.GetOr(0) + dto.cantidad.value)) else p;
      Outcome(Created(|t.movimientosInventario|), t.(
        productos := t.productos[pid := updated],
        movimientosInventario := t.movimientosInventario + [MovementFor(dto, now)]))
  }

  /** What the request does:
      - it is accepted exactly when both ids are given, the product and the
        user are visible, the save works, and either there is no quantity or
        the kind is "Entrada" or "Ajuste";
      - a missing id throws while the value is read; with both ids given, a
        hidden product or user, or a quantity with any other kind, is a bad
        request; what is left is a failing save, a server error;
      - a refused request changes nothing;
      - an accepted one logs exactly one movement stamped `now` and changes
        the stock of the target product only, by `(stock ?? 0) + quantity`
        when a quantity is given. */
  lemma PostMovimientoInventarioEffect(t: Tables, dto: CreateMovimientoInventarioDto, now: int, saveFails: bool)
    ensures var r := PostMovimientoInventarioSpec(t, dto, now, saveFails);
      && (r.status.Created? <==>
            && dto.productoId.Some? && dto.usuarioId.Some?
            && dto.productoId.value in VisibleProductos(t.productos) && dto.usuarioId.value in VisibleUsuarios(t.usuarios)
            && (dto.cantidad.None? || IsIncrementKind(dto.tipo)) && !saveFails)
      && (dto.productoId.None? || dto.usuarioId.None? ==> r.status == InternalError(InvalidOperationException))
      && (r.status == BadRequest <==>
            && dto.productoId.Some? && dto.usuarioId.Some?
            && (|| dto.productoId.value !in VisibleProductos(t.productos) || dto.usuarioId.value !in VisibleUsuarios(t.usuarios)
                || (dto.cantidad.Some? && !IsIncrementKind(dto.tipo))))
      && (r.status.Created? || r.status == BadRequest || r.status == InternalError(InvalidOperationException)
          || r.status == InternalError(StorageException))
      && (!r.status.Created? ==> r.tables == t)
      && (r.status.Created? ==>
            var pid := dto.productoId.value;
            && r.tables.movimientosInventario == t.movimientosInventario + [MovementFor(dto, now)]
            && r.tables.movimientosInventario[|t.movimientosInventario|].fecha == Some(now)
            && r.tables.productos.Keys == t.productos.Keys
            && (forall k :: k in t.productos && k != pid ==> r.tables.productos[k] == t.productos[k])
            && (dto.cantidad.Some? ==> r.tables.productos[pid].stock == Some(t.productos[pid].stock.GetOr(0) + dto.cantidad.value))
            && (dto.cantidad.None? ==> r.tables.productos[pid] == t.productos[pid])
            && r.tables.productos[pid].(stock := t.productos[pid].stock) == t.productos[pid]
            && r.tables == t.(productos := r.tables.productos, movimientosInventario := r.tables.movimientosInventario))
  {
  }

  lemma PostMovimientoInventarioKeepsValid(t: Tables, dto: CreateMovimientoInventarioDto, now: int, saveFails: bool)
    requires ValidTables(t)
    ensures ValidTables(PostMovimientoInventarioSpec(t, dto, now, saveFails).tables)
  {
  }

  /** An accepted movement keeps the stock ledger reconciled: the stock it
      adds is exactly the effect of the movement it logs. */
  lemma PostMovimientoInventarioKeepsLedger(opening: map<int, int>, t: Tables, dto: CreateMovimientoInventarioDto, now: int, saveFails: bool)
    requires Reconciled(opening, t.productos, t.movimientosInventario)
    ensures var r := PostMovimientoInventarioSpec(t, dto, now, saveFails).tables;
      Reconciled(opening, r.productos, r.movimientosInventario)
  {
    var r := PostMovimientoInventarioSpec(t, dto, now, saveFails);
    if r.status.Created? {
      var m := MovementFor(dto, now);
      forall pid | pid in r.tables.productos
        ensures pid in opening && StockValue(r.tables.productos[pid]) == opening[pid] + Delta(r.tables.movimientosInventario, pid)
      {
        DeltaAppendOne(t.movimientosInventario, m, pid);
      }
    }
  }

  method PostMovimientoInventario(db: EmpresaDbContext, dto: CreateMovimientoInventarioDto, now: int, saveFails: bool)
    returns (status: Status)
    requires db.Valid()
    modifies db
    ensures db.Valid()
    ensures Outcome(status, db.Contents()) == PostMovimientoInventarioSpec(old(db.Contents()), dto, now, saveFails)
  {
    ghost var t0 := db.Contents();
    PostMovimientoInventarioKeepsValid(t0, dto, now, saveFails);
    if dto.productoId.None? || dto.usuarioId.None? {
      return InternalError(InvalidOperationException);
    }
    var pid, uid := dto.productoId.value, dto.usuarioId.value;
    var productos := VisibleProductos(db.productos);
    var usuarios := VisibleUsuarios(db.usuarios);
    if pid !in productos || uid !in usuarios {
      return BadRequest;
    }
    var producto := productos[pid];

    var transaction := db.Contents();
    var movimiento := MovementFor(dto, now);
    db.movimientosInventario := db.movimientosInventario + [movimiento];
    if movimiento.cantidad.Some? {
      if IsIncrementKind(movimiento.tipo) {
        producto := producto.(stock := Some(producto.stock.GetOr(0) + movimiento.cantidad.value));
      } else {
        db.Write(transaction);
        return BadRequest;
      }
    }
    db.productos := db.productos[pid := producto];
    if saveFails {
      db.Write(transaction);
      return InternalError(StorageException);
    }
    return Created(|transaction.movimientosInventario|);
  }
}
