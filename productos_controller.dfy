/** Products. A create or an update needs a non-blank name and category and
    a positive price, and an inventory that exists when one is named. An
    update overwrites the stock with the request's value, outside the
    movement log. A delete is a soft delete: the row stays, flagged, and the
    query filter hides it from then on. */
module ProductosController {
  import opened Common
  import opened Models
  import opened EmpresaDb
  import opened StockLedger

  /** The request's own validation, shared by create and update. */
  predicate ValidProductoDto(dto: CreateProductoDto) {
    !IsNullOrWhiteSpace(dto.nombre) && !IsNullOrWhiteSpace(dto.categoria) && dto.precio > 0
  }

  /** A named inventory must exist; none named is fine. */
  predicate InventarioOk(t: Tables, dto: CreateProductoDto) {
    dto.inventarioId.None? || dto.inventarioId.value in t.inventarios
  }

  /** `PostProducto` on tables `t`; a failing save is caught and answered
      with BadRequest. */
  function PostProductoSpec(t: Tables, dto: CreateProductoDto, saveFails: bool): Outcome {
    if !ValidProductoDto(dto) then
      Outcome(BadRequest, t)
    else if !InventarioOk(t, dto) then
      Outcome(BadRequest, t)
    else if saveFails then
      Outcome(BadRequest, t)
    else
      var p := Producto(dto.nombre.value, dto.precio, dto.categoria, dto.stock, false, None, dto.inventarioId);
      Outcome(Created(t.nextId), t.(productos := t.productos[t.nextId := p], nextId := t.nextId + 1))
  }

  /** What `PostProducto` does:
      - it creates a product exactly when the request is valid, its
        inventory exists and the save works;
      - the new row holds the request's fields, is not flagged and is
        visible at once under a fresh id;
      - nothing else changes, and a refused request changes nothing. */
  lemma PostProductoEffect(t: Tables, dto: CreateProductoDto, saveFails: bool)
    requires ValidTables(t)
    ensures var r := PostProductoSpec(t, dto, saveFails);
      && (r.status.Created? <==> ValidProductoDto(dto) && InventarioOk(t, dto) && !saveFails)
      && (!r.status.Created? ==> r.status == BadRequest && r.tables == t)
      && (r.status.Created? ==>
            var p := r.tables.productos[t.nextId];
            && r.status == Created(t.nextId) && t.nextId !in t.productos
            && r.tables.productos == t.productos[t.nextId := p]
            && Some(p.nombre) == dto.nombre && p.precio == dto.precio && p.categoria == dto.categoria
            && p.stock == dto.stock && p.inventarioId == dto.inventarioId
            && t.nextId in VisibleProductos(r.tables.productos)
            && r.tables == t.(productos := r.tables.productos, nextId := t.nextId + 1))
  {
  }

  lemma PostProductoKeepsValid(t: Tables, dto: CreateProductoDto, saveFails: bool)
    requires ValidTables(t)
    ensures ValidTables(PostProductoSpec(t, dto, saveFails).tables)
  {
  }

  /** A new product joins the ledger with its initial stock as its opening
      stock; no movement names an id that was never handed out. */
  lemma PostProductoKeepsLedger(opening: map<int, int>, t: Tables, dto: CreateProductoDto, saveFails: bool)
    requires ValidTables(t)
    requires Reconciled(opening, t.productos, t.movimientosInventario)
    requires Delta(t.movimientosInventario, t.nextId) == 0
    ensures var r := PostProductoSpec(t, dto, saveFails);
      r.status.Created? ==> Reconciled(opening[t.nextId := dto.stock.GetOr(0)], r.tables.productos, r.tables.movimientosInventario)
  {
    var r := PostProductoSpec(t, dto, saveFails);
    if r.status.Created? {
      var o := opening[t.nextId := dto.stock.GetOr(0)];
      forall pid | pid in r.tables.productos
        ensures pid in o && StockValue(r.tables.productos[pid]) == o[pid] + Delta(t.movimientosInventario, pid)
      {
        if pid != t.nextId {
          assert r.tables.productos[pid] == t.productos[pid];
        }
      }
    }
  }

  method PostProducto(db: EmpresaDbContext, dto: CreateProductoDto, saveFails: bool) returns (status: Status)
    requires db.Valid()
    modifies db
    ensures db.Valid()
    ensures Outcome(status, db.Contents()) == PostProductoSpec(old(db.Contents()), dto, saveFails)
  {
    PostProductoKeepsValid(db.Contents(), dto, saveFails);
    if IsNullOrWhiteSpace(dto.nombre) || IsNullOrWhiteSpace(dto.categoria) || dto.precio <= 0 {
      return BadRequest;
    }
    if dto.inventarioId.Some? {
      if dto.inventarioId.value !in db.inventarios {
        return BadRequest;
      }
    }
    var producto := Producto(dto.nombre.value, dto.precio, dto.categoria, dto.stock, false, None, dto.inventarioId);
    if saveFails {
      return BadRequest;
    }
    var id := db.nextId;
    db.productos := db.productos[id := producto];
    db.nextId := id + 1;
    return Created(id);
  }

  /** `PutProducto` on tables `t`. The lookup goes through the query filter,
      so a soft-deleted product is NotFound; a failing save is answered with
      BadRequest. */
  function PutProductoSpec(t: Tables, id: int, dto: CreateProductoDto, saveFails: bool): Outcome {
    if !ValidProductoDto(dto) then
      Outcome(BadRequest, t)
    else if id !in VisibleProductos(t.productos) then
      Outcome(NotFound, t)
    else if !InventarioOk(t, dto) then
      Outcome(BadRequest, t)
    else if saveFails then
      Outcome(BadRequest, t)
    else
      var p := t.productos[id].(nombre := dto.nombre.value, precio := dto.precio, categoria := dto.categoria,
        stock := dto.stock, inventarioId := dto.inventarioId);
      Outcome(NoContent, t.(productos := t.productos[id := p]))
  }

  /** What `PutProducto` does:
      - validation comes before the lookup, so an invalid request is
        BadRequest even for an unknown id;
      - a valid request for a missing or soft-deleted product is NotFound;
      - an accepted update overwrites the five fields and keeps the flag,
        the deletion date and every other row;
      - a refused request changes nothing. */
  lemma PutProductoEffect(t: Tables, id: int, dto: CreateProductoDto, saveFails: bool)
    ensures var r := PutProductoSpec(t, id, dto, saveFails);
      && (!ValidProductoDto(dto) ==> r.status == BadRequest)
      && (ValidProductoDto(dto) && id !in VisibleProductos(t.productos) ==> r.status == NotFound)
      && (r.status == NoContent <==> ValidProductoDto(dto) && id in VisibleProductos(t.productos) && InventarioOk(t, dto) && !saveFails)
      && (r.status != NoContent ==> r.tables == t)
      && (r.status == NoContent ==>
            var p := r.tables.productos[id];
            && Some(p.nombre) == dto.nombre && p.precio == dto.precio && p.categoria == dto.categoria
            && p.stock == dto.stock && p.inventarioId == dto.inventarioId
            && !p.estaEliminado && p.fechaEliminacion == t.productos[id].fechaEliminacion
            && r.tables.productos.Keys == t.productos.Keys
            && (forall k :: k in t.productos && k != id ==> r.tables.productos[k] == t.productos[k])
            && r.tables == t.(productos := r.tables.productos))
  {
  }

  lemma PutProductoKeepsValid(t: Tables, id: int, dto: CreateProductoDto, saveFails: bool)
    requires ValidTables(t)
    ensures ValidTables(PutProductoSpec(t, id, dto, saveFails).tables)
  {
  }

  /** An accepted update keeps the ledger reconciled exactly when it leaves
      the product's counted stock as it was: any other stock it writes is a
      change no movement explains. */
  lemma {:induction false} PutProductoLedger(opening: map<int, int>, t: Tables, id: int, dto: CreateProductoDto, saveFails: bool)
    requires Reconciled(opening, t.productos, t.movimientosInventario)
    requires PutProductoSpec(t, id, dto, saveFails).status == NoContent
    ensures var r := PutProductoSpec(t, id, dto, saveFails);
      Reconciled(opening, r.tables.productos, r.tables.movimientosInventario) <==>
        dto.stock.GetOr(0) == StockValue(t.productos[id])
  {
    var r := PutProductoSpec(t, id, dto, saveFails);
    assert id in t.productos && r.tables.productos[id].stock == dto.stock;
    assert r.tables.movimientosInventario == t.movimientosInventario;
    if dto.stock.GetOr(0) == StockValue(t.productos[id]) {
      forall pid | pid in r.tables.productos
        ensures pid in opening && StockValue(r.tables.productos[pid]) == opening[pid] + Delta(t.movimientosInventario, pid)
      {
        if pid != id {
          assert r.tables.productos[pid] == t.productos[pid];
        }
      }
    } else {
      assert StockValue(r.tables.productos[id]) != opening[id] + Delta(t.movimientosInventario, id);
    }
  }

  method PutProducto(db: EmpresaDbContext, id: int, dto: CreateProductoDto, saveFails: bool) returns (status: Status)
    requires db.Valid()
    modifies db
    ensures db.Valid()
    ensures Outcome(status, db.Contents()) == PutProductoSpec(old(db.Contents()), id, dto, saveFails)
  {
    PutProductoKeepsValid(db.Contents(), id, dto, saveFails);
    if IsNullOrWhiteSpace(dto.nombre) || IsNullOrWhiteSpace(dto.categoria) || dto.precio <= 0 {
      return BadRequest;
    }
    if id !in VisibleProductos(db.productos) {
      return NotFound;
    }
    var producto := db.productos[id];
    if dto.inventarioId.Some? {
      if dto.inventarioId.value !in db.inventarios {
        return BadRequest;
      }
    }
    producto := producto.(nombre := dto.nombre.value, precio := dto.precio, categoria := dto.categoria);
    producto := producto.(stock := dto.stock, inventarioId := dto.inventarioId);
    if saveFails {
      return BadRequest;
    }
    db.productos := db.productos[id := producto];
    return NoContent;
  }

  /** `DeleteProducto` on tables `t`. Both refusals are thrown exceptions;
      the removal is intercepted into a flag update (the deletion date is not
      set), and a failing save is not caught. */
  function DeleteProductoSpec(t: Tables, id: int, saveFails: bool): Outcome {
    if id <= 0 then
      Outcome(InternalError(ArgumentException), t)
    else if id !in VisibleProductos(t.productos) then
      Outcome(InternalError(KeyNotFoundException), t)
    else if saveFails then
      Outcome(InternalError(StorageException), t)
    else
      var p := t.productos[id];
      var e := InterceptEntry(EntityEntry(ProductoEntity, Deleted, p.estaEliminado, p.fechaEliminacion));
      Outcome(NoContent, t.(productos := ApplyRemoval(t.productos, id, e, p.(estaEliminado := e.estaEliminado, fechaEliminacion := e.fechaEliminacion))))
  }

  /** What `DeleteProducto` does:
      - a non-positive id throws an argument error, a hidden or missing
        product a key-not-found error, a failing save its storage error;
      - an accepted delete keeps the row with every field but the flag;
      - the flag is set and the deletion date left as it was;
      - the product leaves the visible products, and every other product
        keeps its visibility;
      - a refused delete changes nothing. */
  lemma DeleteProductoEffect(t: Tables, id: int, saveFails: bool)
    ensures var r := DeleteProductoSpec(t, id, saveFails);
      && (r.status == NoContent <==> id > 0 && id in VisibleProductos(t.productos) && !saveFails)
      && (r.status != NoContent ==> r.tables == t)
      && (id <= 0 ==> r.status == InternalError(ArgumentException))
      && (id > 0 && id !in VisibleProductos(t.productos) ==> r.status == InternalError(KeyNotFoundException))
      && (id > 0 && id in VisibleProductos(t.productos) && saveFails ==> r.status == InternalError(StorageException))
      && (r.status == NoContent ==>
            && r.tables.productos == t.productos[id := t.productos[id].(estaEliminado := true)]
            && id in r.tables.productos && id !in VisibleProductos(r.tables.productos)
            && (forall k :: k != id ==> (k in VisibleProductos(r.tables.productos) <==> k in VisibleProductos(t.productos)))
            && r.tables == t.(productos := r.tables.productos))
  {
  }

  /** A soft delete leaves every stock as it was, so the ledger stays
      reconciled with the same opening stocks. */
  lemma DeleteProductoKeepsLedger(opening: map<int, int>, t: Tables, id: int, saveFails: bool)
    requires Reconciled(opening, t.productos, t.movimientosInventario)
    ensures var r := DeleteProductoSpec(t, id, saveFails);
      Reconciled(opening, r.tables.productos, r.tables.movimientosInventario)
  {
    var r := DeleteProductoSpec(t, id, saveFails);
    if r.status == NoContent {
      forall pid | pid in r.tables.productos
        ensures pid in opening && StockValue(r.tables.productos[pid]) == opening[pid] + Delta(t.movimientosInventario, pid)
      {
        assert StockValue(r.tables.productos[pid]) == StockValue(t.productos[pid]);
      }
    }
  }

  method DeleteProducto(db: EmpresaDbContext, id: int, saveFails: bool) returns (status: Status)
    requires db.Valid()
    modifies db
    ensures db.Valid()
    ensures Outcome(status, db.Contents()) == DeleteProductoSpec(old(db.Contents()), id, saveFails)
  {
    if id <= 0 {
      return InternalError(ArgumentException);
    }
    if id !in VisibleProductos(db.productos) {
      return InternalError(KeyNotFoundException);
    }
    var producto := db.productos[id];
    var entry := SaveRemoval(ProductoEntity, producto.estaEliminado, producto.fechaEliminacion);
    if saveFails {
      return InternalError(StorageException);
    }
    producto := producto.(estaEliminado := entry.estaEliminado, fechaEliminacion := entry.fechaEliminacion);
    db.productos := ApplyRemoval(db.productos, id, entry, producto);
    return NoContent;
  }
}
