/** Sale lines edited one at a time. A created line's total is its quantity
    times its unit price; an update recomputes the total only when both are
    present; a delete removes the row, since sale lines are not soft-deletable.
    None of these touches product stock, the movement log or the sale's total. */
module DetallesVentaController {
  import opened Common
  import opened Models
  import opened EmpresaDb

  /** `PostDetalle` on tables `t`. The sale id, the product id and the unit
      price are read with `.Value`, so a missing one ends in a 500 answer. */
  function PostDetalleSpec(t: Tables, dto: CreateDetalleVentaDto, saveFails: bool): Outcome {
    if dto.cantidad.None? || dto.cantidad.value <= 0 then
      Outcome(BadRequest, t)
    else if dto.ventaId.None? then
      Outcome(InternalError(InvalidOperationException), t)
    else if dto.ventaId.value !in t.ventas then
      Outcome(BadRequest, t)
    else if dto.productoId.None? then
      Outcome(InternalError(InvalidOperationException), t)
    else if dto.productoId.value !in VisibleProductos(t.productos) then
      Outcome(BadRequest, t)
    else if dto.precioUnitario.None? then
      Outcome(InternalError(InvalidOperationException), t)
    else if saveFails then
      Outcome(InternalError(StorageException), t)
    else
      var detalle := Detalleventum(dto.cantidad, dto.precioUnitario, Some(dto.cantidad.value * dto.precioUnitario.value), dto.ventaId, dto.productoId);
      Outcome(Created(t.nextId), t.(detalleventa := t.detalleventa[t.nextId := detalle], nextId := t.nextId + 1))
  }

  /** What `PostDetalle` does:
      - it refuses a missing or non-positive quantity, then a missing sale,
        then a missing or hidden product;
      - a created line stores the request's fields with a total of quantity
        times unit price, under a fresh id;
      - no other table changes, in particular neither stock, the movement
        log nor any sale header;
      - a request that creates nothing changes nothing. */
  lemma PostDetalleEffect(t: Tables, dto: CreateDetalleVentaDto, saveFails: bool)
    requires ValidTables(t)
    ensures var r := PostDetalleSpec(t, dto, saveFails);
      && (dto.cantidad.None? || dto.cantidad.value <= 0 ==> r.status == BadRequest)
      && (dto.cantidad.Some? && dto.cantidad.value > 0 && dto.ventaId.Some? && dto.ventaId.value !in t.ventas ==> r.status == BadRequest)
      && (r.status.Created? <==>
            && dto.cantidad.Some? && dto.cantidad.value > 0
            && dto.ventaId.Some? && dto.ventaId.value in t.ventas
            && dto.productoId.Some? && dto.productoId.value in VisibleProductos(t.productos)
            && dto.precioUnitario.Some? && !saveFails)
      && (!r.status.Created? ==> r.tables == t)
      && (r.status.Created? ==>
            && r.status == Created(t.nextId) && t.nextId !in t.detalleventa
            && r.tables.detalleventa == t.detalleventa[t.nextId := r.tables.detalleventa[t.nextId]]
            && r.tables.detalleventa[t.nextId].precioTotal == Some(dto.cantidad.value * dto.precioUnitario.value)
            && r.tables.detalleventa[t.nextId].cantidad == dto.cantidad
            && r.tables.detalleventa[t.nextId].precioUnitario == dto.precioUnitario
            && r.tables.detalleventa[t.nextId].ventaId == dto.ventaId
            && r.tables.detalleventa[t.nextId].productoId == dto.productoId
            && r.tables.productos == t.productos && r.tables.movimientosInventario == t.movimientosInventario
            && r.tables.ventas == t.ventas
            && r.tables == t.(detalleventa := r.tables.detalleventa, nextId := t.nextId + 1))
  {
  }

  lemma PostDetalleKeepsValid(t: Tables, dto: CreateDetalleVentaDto, saveFails: bool)
    requires ValidTables(t)
    ensures ValidTables(PostDetalleSpec(t, dto, saveFails).tables)
  {
  }

  method PostDetalle(db: EmpresaDbContext, dto: CreateDetalleVentaDto, saveFails: bool) returns (status: Status)
    requires db.Valid()
    modifies db
    ensures db.Valid()
    ensures Outcome(status, db.Contents()) == PostDetalleSpec(old(db.Contents()), dto, saveFails)
  {
    PostDetalleKeepsValid(db.Contents(), dto, saveFails);
    if dto.cantidad.None? || dto.cantidad.value <= 0 {
      return BadRequest;
    }
    if dto.ventaId.None? {
      return InternalError(InvalidOperationException);
    }
    if dto.ventaId.value !in db.ventas {
      return BadRequest;
    }
    if dto.productoId.None? {
      return InternalError(InvalidOperationException);
    }
    if dto.productoId.value !in VisibleProductos(db.productos) {
      return BadRequest;
    }
    var detalle := Detalleventum(dto.cantidad, dto.precioUnitario, None, dto.ventaId, dto.productoId);
    if detalle.precioUnitario.None? {
      return InternalError(InvalidOperationException);
    }
    detalle := detalle.(precioTotal := Some(detalle.cantidad.value * detalle.precioUnitario.value));
    if saveFails {
      return InternalError(StorageException);
    }
    var id := db.nextId;
    db.detalleventa := db.detalleventa[id := detalle];
    db.nextId := id + 1;
    return Created(id);
  }

  /** `PutDetalle` on tables `t`. The mapping copies the four request fields,
      nulls included, and keeps the stored total; the total is recomputed
      only when both quantity and unit price are present. */
  function PutDetalleSpec(t: Tables, id: int, dto: CreateDetalleVentaDto, saveFails: bool): Outcome {
    if id !in t.detalleventa then
      Outcome(NotFound, t)
    else if saveFails then
      Outcome(InternalError(StorageException), t)
    else
      var mapped := t.detalleventa[id].(cantidad := dto.cantidad, precioUnitario := dto.precioUnitario, ventaId := dto.ventaId, productoId := dto.productoId);
      var updated := if mapped.cantidad.Some? && mapped.precioUnitario.Some? then mapped.(precioTotal := Some(mapped.cantidad.value * mapped.precioUnitario.value)) else mapped;
      Outcome(NoContent, t.(detalleventa := t.detalleventa[id := updated]))
  }

  /** What `PutDetalle` does:
      - a missing line is NotFound and nothing changes;
      - otherwise the line takes the request's four fields;
      - its total becomes quantity times price when both are present, and is
        kept when either is missing;
      - no other row or table changes. */
  lemma PutDetalleEffect(t: Tables, id: int, dto: CreateDetalleVentaDto, saveFails: bool)
    ensures var r := PutDetalleSpec(t, id, dto, saveFails);
      && (id !in t.detalleventa ==> r == Outcome(NotFound, t))
      && (r.status != NoContent ==> r.tables == t)
      && (r.status == NoContent <==> id in t.detalleventa && !saveFails)
      && (r.status == NoContent ==>
            var d := r.tables.detalleventa[id];
            && d.cantidad == dto.cantidad && d.precioUnitario == dto.precioUnitario
            && d.ventaId == dto.ventaId && d.productoId == dto.productoId
            && (dto.cantidad.Some? && dto.precioUnitario.Some? ==> d.precioTotal == Some(dto.cantidad.value * dto.precioUnitario.value))
            && (dto.cantidad.None? || dto.precioUnitario.None? ==> d.precioTotal == t.detalleventa[id].precioTotal)
            && r.tables.detalleventa.Keys == t.detalleventa.Keys
            && (forall k :: k in t.detalleventa && k != id ==> r.tables.detalleventa[k] == t.detalleventa[k])
            && r.tables == t.(detalleventa := r.tables.detalleventa))
  {
  }

  method PutDetalle(db: EmpresaDbContext, id: int, dto: CreateDetalleVentaDto, saveFails: bool) returns (status: Status)
    requires db.Valid()
    modifies db
    ensures db.Valid()
    ensures Outcome(status, db.Contents()) == PutDetalleSpec(old(db.Contents()), id, dto, saveFails)
  {
    if id !in db.detalleventa {
      return NotFound;
    }
    var detalle := db.detalleventa[id];
    detalle := detalle.(cantidad := dto.cantidad, precioUnitario := dto.precioUnitario, ventaId := dto.ventaId, productoId := dto.productoId);
    if detalle.cantidad.Some? && detalle.precioUnitario.Some? {
      detalle := detalle.(precioTotal := Some(detalle.cantidad.value * detalle.precioUnitario.value));
    }
    if saveFails {
      return InternalError(StorageException);
    }
    db.detalleventa := db.detalleventa[id := detalle];
    return NoContent;
  }

  /** `DeleteDetalle` on tables `t`: the removal reaches the base save still
      Deleted, so the row is physically removed. */
  function DeleteDetalleSpec(t: Tables, id: int, saveFails: bool): Outcome {
    if id <= 0 then
      Outcome(BadRequest, t)
    else if id !in t.detalleventa then
      Outcome(NotFound, t)
    else if saveFails then
      Outcome(InternalError(StorageException), t)
    else
      var e := InterceptEntry(EntityEntry(DetalleventumEntity, Deleted, false, None));
      Outcome(NoContent, t.(detalleventa := ApplyRemoval(t.detalleventa, id, e, t.detalleventa[id])))
  }

  /** A deleted sale line is gone; the other lines and tables are kept. */
  lemma DeleteDetalleEffect(t: Tables, id: int, saveFails: bool)
    ensures var r := DeleteDetalleSpec(t, id, saveFails);
      && (r.status == NoContent <==> id > 0 && id in t.detalleventa && !saveFails)
      && (r.status != NoContent ==> r.tables == t)
      && (r.status == NoContent ==> r.tables == t.(detalleventa := t.detalleventa - {id}))
      && (id <= 0 ==> r.status == BadRequest)
      && (id > 0 && id !in t.detalleventa ==> r.status == NotFound)
  {
  }

  method DeleteDetalle(db: EmpresaDbContext, id: int, saveFails: bool) returns (status: Status)
    requires db.Valid()
    modifies db
    ensures db.Valid()
    ensures Outcome(status, db.Contents()) == DeleteDetalleSpec(old(db.Contents()), id, saveFails)
  {
    if id <= 0 {
      return BadRequest;
    }
    if id !in db.detalleventa {
      return NotFound;
    }
    var detalle := db.detalleventa[id];
    var entry := SaveRemoval(DetalleventumEntity, false, None);
    if saveFails {
      return InternalError(StorageException);
    }
    db.detalleventa := ApplyRemoval(db.detalleventa, id, entry, detalle);
    return NoContent;
  }
}
