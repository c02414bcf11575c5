/** The sale transaction. A sale is accepted for a visible user whose persona
    is present and not flagged as deleted. Then, inside one transaction:
    - the header is stored with a provisional total of 0;
    - each line in turn checks its product's stock against the stock as left by
      the earlier lines, takes the quantity away, and logs a "Salida" movement
      referenced "VTA-{id}";
    - the line is stored with its price times its quantity;
    - the header's total becomes the sum of those line prices.
    The first failing line rolls the whole sale back. */
module VentasController {
  import opened Common
  import opened Models
  import opened EmpresaDb
  import opened StockLedger

  /** `UsuarioExistsAsync`: a visible usuario with that id whose persona is
      present and not flagged as deleted. */
  predicate UsuarioExists(usuarios: map<int, Usuario>, personas: map<int, Persona>, id: int) {
    && id in VisibleUsuarios(usuarios)
    && usuarios[id].personaId in personas
    && !personas[usuarios[id].personaId].estaEliminado
  }

  // ---------------------------------------------------------------------------
  // One line of a sale
  // ---------------------------------------------------------------------------

  /** Why a line stops the sale; both become an InvalidOperationException. */
  datatype SaleFailure =
    | MissingData
    | InsufficientStock(productoId: int, stockActual: int)

  /** The text the 400 answer carries. */
  function FailureMessage(f: SaleFailure): string {
    match f
    case MissingData => "Faltan datos de Producto o Cantidad en el detalle."
    case InsufficientStock(pid, stock) =>
      "Stock insuficiente para Producto ID: " + IntToString(pid) + ". Stock actual: " + IntToString(stock) + "."
  }

  /** The message of a stock failure names the product and the stock it found. */
  lemma FailureMessageNamesProductAndStock(pid: int, stock: int)
    ensures Contains(FailureMessage(InsufficientStock(pid, stock)), IntToString(pid))
    ensures Contains(FailureMessage(InsufficientStock(pid, stock)), IntToString(stock))
  {
    var a := "Stock insuficiente para Producto ID: ";
    var b := ". Stock actual: ";
    var p, q := IntToString(pid), IntToString(stock);
    var msg := FailureMessage(InsufficientStock(pid, stock));
    assert msg == a + p + b + q + ".";
    assert msg[|a|..|a| + |p|] == p;
    assert msg[|a| + |p| + |b|..|a| + |p| + |b| + |q|] == q;
  }

  /** The reference every movement of sale `ventaId` carries. */
  function Referencia(ventaId: int): string {
    "VTA-" + IntToString(ventaId)
  }

  /** Different sales give their movements different references. */
  lemma ReferenciaInjective(a: int, b: int)
    requires Referencia(a) == Referencia(b)
    ensures a == b
  {
    assert IntToString(a) == Referencia(a)[4..] == Referencia(b)[4..] == IntToString(b);
    IntToStringInjective(a, b);
  }

  /** `PrecioUnitario * Cantidad` on nullable operands: null when either is. */
  function LinePrice(line: CreateDetalleVentaDto): (r: Option<int>) {
    if line.precioUnitario.Some? && line.cantidad.Some? then Some(line.precioUnitario.value * line.cantidad.value)
    else None
  }

  /** The movement a line logs. */
  function SalidaFor(line: CreateDetalleVentaDto, ventaId: int, usuarioId: Option<int>, now: int): MovimientoInventario {
    MovimientoInventario(Some(now), "Salida", line.cantidad, Referencia(ventaId), line.productoId, usuarioId)
  }

  /** The sale line stored for a request line (the mapping ignores the
      request's own total; the sale id is the header's). */
  function DetailFor(line: CreateDetalleVentaDto, ventaId: int): Detalleventum {
    Detalleventum(line.cantidad, line.precioUnitario, LinePrice(line), Some(ventaId), line.productoId)
  }

  /** The tables a sale stages while its lines are processed, and the running total. */
  datatype Staged = Staged(
    productos: map<int, Producto>,
    movimientos: seq<MovimientoInventario>,
    detalles: map<int, Detalleventum>,
    nextId: int,
    total: int)

  /** The body of the loop over the lines, for one line. */
  function LineStep(s: Staged, line: CreateDetalleVentaDto, ventaId: int, usuarioId: Option<int>, now: int): Result<Staged, SaleFailure> {
    if line.productoId.None? || line.cantidad.None? then
      Err(MissingData)
    else
      var pid, q := line.productoId.value, line.cantidad.value;
      var visible := VisibleProductos(s.productos);
      if pid !in visible || visible[pid].stock.None? || visible[pid].stock.value < q then
        Err(InsufficientStock(pid, if pid in visible then visible[pid].stock.GetOr(0) else 0))
      else
        var p := visible[pid];
        Ok(Staged(
          s.productos[pid := p.(stock := Some(p.stock.value - q))],
          s.movimientos + [SalidaFor(line, ventaId, usuarioId, now)],
          s.detalles[s.nextId := DetailFor(line, ventaId)],
          s.nextId + 1,
          s.total + LinePrice(line).GetOr(0)))
  }

  /** The loop over all lines, stopping at the first failure. */
  function ProcessLines(s: Staged, lines: seq<CreateDetalleVentaDto>, ventaId: int, usuarioId: Option<int>, now: int): Result<Staged, SaleFailure>
    decreases |lines|
  {
    if lines == [] then
      Ok(s)
    else
      match LineStep(s, lines[0], ventaId, usuarioId, now)
      case Err(f) => Err(f)
      case Ok(s') => ProcessLines(s', lines[1..], ventaId, usuarioId, now)
  }

  // ---------------------------------------------------------------------------
  // What the lines add up to
  // ---------------------------------------------------------------------------

  /** A line names product `pid`. */
  predicate Names(line: CreateDetalleVentaDto, pid: int) {
    line.productoId == Some(pid)
  }

  /** Some line names product `pid`. */
  predicate Mentions(lines: seq<CreateDetalleVentaDto>, pid: int) {
    exists k :: 0 <= k < |lines| && Names(lines[k], pid)
  }

  /** The quantity the lines take from product `pid`. */
  function QtyFor(lines: seq<CreateDetalleVentaDto>, pid: int): int
    decreases |lines|
  {
    if lines == [] then 0
    else (if Names(lines[0], pid) then lines[0].cantidad.GetOr(0) else 0) + QtyFor(lines[1..], pid)
  }

  /** The sum of the line prices, a line without one counting 0. */
  function SumLinePrices(lines: seq<CreateDetalleVentaDto>): int
    decreases |lines|
  {
    if lines == [] then 0 else LinePrice(lines[0]).GetOr(0) + SumLinePrices(lines[1..])
  }

  lemma MentionsCons(lines: seq<CreateDetalleVentaDto>, pid: int)
    requires lines != []
    ensures Mentions(lines, pid) <==> Names(lines[0], pid) || Mentions(lines[1..], pid)
  {
    if Mentions(lines, pid) && !Names(lines[0], pid) {
      var k :| 0 <= k < |lines| && Names(lines[k], pid);
      assert lines[1..][k - 1] == lines[k];
    }
    if Mentions(lines[1..], pid) {
      var k :| 0 <= k < |lines[1..]| && Names(lines[1..][k], pid);
      assert lines[k + 1] == lines[1..][k];
    }
  }

  lemma {:induction false} QtyForUnmentioned(lines: seq<CreateDetalleVentaDto>, pid: int)
    requires !Mentions(lines, pid)
    ensures QtyFor(lines, pid) == 0
    decreases |lines|
  {
    if lines != [] {
      MentionsCons(lines, pid);
      QtyForUnmentioned(lines[1..], pid);
    }
  }

  /** A successful run of the lines leaves every product the lines do not
      name as it was, and takes from each named product exactly the sum of
      its lines' quantities, with that product present, visible and holding a
      stock at the start. Nothing but stock changes. */
  lemma {:induction false} ProcessLinesStock(s: Staged, lines: seq<CreateDetalleVentaDto>, ventaId: int, usuarioId: Option<int>, now: int, pid: int)
    requires ProcessLines(s, lines, ventaId, usuarioId, now).Ok?
    ensures var t := ProcessLines(s, lines, ventaId, usuarioId, now).value;
      && t.productos.Keys == s.productos.Keys
      && (!Mentions(lines, pid) ==> (pid in s.productos ==> t.productos[pid] == s.productos[pid]))
      && (Mentions(lines, pid) ==>
            && pid in s.productos && !s.productos[pid].estaEliminado && s.productos[pid].stock.Some?
            && t.productos[pid] == s.productos[pid].(stock := Some(s.productos[pid].stock.value - QtyFor(lines, pid))))
    decreases |lines|
  {
    if lines != [] {
      MentionsCons(lines, pid);
      var s' := LineStep(s, lines[0], ventaId, usuarioId, now).value;
      var t := ProcessLines(s', lines[1..], ventaId, usuarioId, now).value;
      var p0, q0 := lines[0].productoId.value, lines[0].cantidad.value;
      assert p0 in s.productos && !s.productos[p0].estaEliminado && s.productos[p0].stock.Some?;
      assert s'.productos == s.productos[p0 := s.productos[p0].(stock := Some(s.productos[p0].stock.value - q0))];
      ProcessLinesStock(s', lines[1..], ventaId, usuarioId, now, pid);
      if Names(lines[0], pid) {
        assert QtyFor(lines, pid) == q0 + QtyFor(lines[1..], pid);
        if !Mentions(lines[1..], pid) {
          QtyForUnmentioned(lines[1..], pid);
        }
      } else {
        assert QtyFor(lines, pid) == QtyFor(lines[1..], pid);
      }
    }
  }

  /** After a successful sale no product the sale names has a negative stock:
      each line's check sees the stock the earlier lines left. This holds even
      for negative quantities, which the sale does not refuse. */
  lemma {:induction false} ProcessLinesStockNonNegative(s: Staged, lines: seq<CreateDetalleVentaDto>, ventaId: int, usuarioId: Option<int>, now: int, pid: int)
    requires ProcessLines(s, lines, ventaId, usuarioId, now).Ok?
    requires Mentions(lines, pid)
    ensures var t := ProcessLines(s, lines, ventaId, usuarioId, now).value;
      pid in t.productos && t.productos[pid].stock.Some? && t.productos[pid].stock.value >= 0
    decreases |lines|
  {
    MentionsCons(lines, pid);
    var s' := LineStep(s, lines[0], ventaId, usuarioId, now).value;
    if Mentions(lines[1..], pid) {
      ProcessLinesStockNonNegative(s', lines[1..], ventaId, usuarioId, now, pid);
    } else {
      ProcessLinesStock(s', lines[1..], ventaId, usuarioId, now, pid);
    }
  }

  /** Movement `m` is the one line `line` of sale `ventaId` logs: kind
      "Salida", the line's quantity and product, the sale's user and
      reference, stamped `now`. */
  predicate IsSalidaOf(m: MovimientoInventario, line: CreateDetalleVentaDto, ventaId: int, usuarioId: Option<int>, now: int) {
    && m.tipo == "Salida" && m.cantidad == line.cantidad && m.productoId == line.productoId
    && m.referencia == Referencia(ventaId) && m.usuarioId == usuarioId && m.fecha == Some(now)
  }

  /** A successful run appends one "Salida" movement per line, in line order,
      and keeps the log before it. */
  lemma {:induction false} ProcessLinesMovements(s: Staged, lines: seq<CreateDetalleVentaDto>, ventaId: int, usuarioId: Option<int>, now: int)
    requires ProcessLines(s, lines, ventaId, usuarioId, now).Ok?
    ensures var t := ProcessLines(s, lines, ventaId, usuarioId, now).value;
      && |t.movimientos| == |s.movimientos| + |lines|
      && t.movimientos[..|s.movimientos|] == s.movimientos
      && forall k :: 0 <= k < |lines| ==> IsSalidaOf(t.movimientos[|s.movimientos| + k], lines[k], ventaId, usuarioId, now)
    decreases |lines|
  {
    if lines != [] {
      var s' := LineStep(s, lines[0], ventaId, usuarioId, now).value;
      ProcessLinesMovements(s', lines[1..], ventaId, usuarioId, now);
      var t := ProcessLines(s, lines, ventaId, usuarioId, now).value;
      var n := |s.movimientos|;
      assert s'.movimientos == s.movimientos + [SalidaFor(lines[0], ventaId, usuarioId, now)];
      assert t.movimientos[..n + 1] == s'.movimientos;
      assert t.movimientos[..n] == t.movimientos[..n + 1][..n];
      forall k | 0 <= k < |lines|
        ensures IsSalidaOf(t.movimientos[n + k], lines[k], ventaId, usuarioId, now)
      {
        if k == 0 {
          assert t.movimientos[n] == t.movimientos[..n + 1][n] == s'.movimientos[n];
        } else {
          assert lines[k] == lines[1..][k - 1];
          assert n + k == |s'.movimientos| + (k - 1);
        }
      }
    }
  }

  /** A successful run stores one sale line per request line under the ids
      `s.nextId`, `s.nextId + 1`, …, each with the line's price times its
      quantity and the sale's id, and keeps the lines already stored. */
  lemma {:induction false} ProcessLinesDetails(s: Staged, lines: seq<CreateDetalleVentaDto>, ventaId: int, usuarioId: Option<int>, now: int)
    requires ProcessLines(s, lines, ventaId, usuarioId, now).Ok?
    requires forall k :: k in s.detalles ==> k < s.nextId
    ensures var t := ProcessLines(s, lines, ventaId, usuarioId, now).value;
      && t.nextId == s.nextId + |lines|
      && (forall k :: k in t.detalles <==> k in s.detalles || s.nextId <= k < t.nextId)
      && (forall k :: k in s.detalles ==> t.detalles[k] == s.detalles[k])
      && forall k :: 0 <= k < |lines| ==>
           var d := t.detalles[s.nextId + k];
           && d.cantidad == lines[k].cantidad && d.precioUnitario == lines[k].precioUnitario
           && d.productoId == lines[k].productoId && d.ventaId == Some(ventaId)
           && lines[k].cantidad.Some?
           && d.precioTotal == (if lines[k].precioUnitario.Some? then Some(lines[k].precioUnitario.value * lines[k].cantidad.value) else None)
    decreases |lines|
  {
    if lines != [] {
      var s' := LineStep(s, lines[0], ventaId, usuarioId, now).value;
      ProcessLinesDetails(s', lines[1..], ventaId, usuarioId, now);
      var t := ProcessLines(s, lines, ventaId, usuarioId, now).value;
      forall k | 0 <= k < |lines|
        ensures var d := t.detalles[s.nextId + k];
          && d.cantidad == lines[k].cantidad && d.precioUnitario == lines[k].precioUnitario
          && d.productoId == lines[k].productoId && d.ventaId == Some(ventaId)
          && lines[k].cantidad.Some?
          && d.precioTotal == (if lines[k].precioUnitario.Some? then Some(lines[k].precioUnitario.value * lines[k].cantidad.value) else None)
      {
        if k > 0 {
          assert lines[k] == lines[1..][k - 1];
          assert s.nextId + k == s'.nextId + (k - 1);
        }
      }
    }
  }

  /** A successful run adds the sum of the line prices to the running total. */
  lemma {:induction false} ProcessLinesTotal(s: Staged, lines: seq<CreateDetalleVentaDto>, ventaId: int, usuarioId: Option<int>, now: int)
    requires ProcessLines(s, lines, ventaId, usuarioId, now).Ok?
    ensures ProcessLines(s, lines, ventaId, usuarioId, now).value.total == s.total + SumLinePrices(lines)
    decreases |lines|
  {
    if lines != [] {
      var s' := LineStep(s, lines[0], ventaId, usuarioId, now).value;
      ProcessLinesTotal(s', lines[1..], ventaId, usuarioId, now);
    }
  }

  /** A line without a product id or a quantity makes the whole run fail,
      wherever it stands. */
  lemma {:induction false} MissingDataFails(s: Staged, lines: seq<CreateDetalleVentaDto>, ventaId: int, usuarioId: Option<int>, now: int, k: int)
    requires 0 <= k < |lines| && (lines[k].productoId.None? || lines[k].cantidad.None?)
    ensures ProcessLines(s, lines, ventaId, usuarioId, now).Err?
    decreases |lines|
  {
    if k > 0 {
      match LineStep(s, lines[0], ventaId, usuarioId, now)
      case Err(_) =>
      case Ok(s') =>
        assert lines[1..][k - 1] == lines[k];
        MissingDataFails(s', lines[1..], ventaId, usuarioId, now, k - 1);
    }
  }

  /** A stock failure names a product of the sale, and reports either 0 or the
      stock the earlier lines of the sale had left it. */
  lemma {:induction false} StockFailureNamesLine(s: Staged, lines: seq<CreateDetalleVentaDto>, ventaId: int, usuarioId: Option<int>, now: int)
    requires ProcessLines(s, lines, ventaId, usuarioId, now).Err?
    requires ProcessLines(s, lines, ventaId, usuarioId, now).error.InsufficientStock?
    ensures Mentions(lines, ProcessLines(s, lines, ventaId, usuarioId, now).error.productoId)
    decreases |lines|
  {
    var pid := ProcessLines(s, lines, ventaId, usuarioId, now).error.productoId;
    MentionsCons(lines, pid);
    match LineStep(s, lines[0], ventaId, usuarioId, now)
    case Err(_) =>
    case Ok(s') =>
      StockFailureNamesLine(s', lines[1..], ventaId, usuarioId, now);
  }

  /** The run keeps the stock ledger: the "Salida" movements it logs explain
      exactly the stock it takes. */
  lemma {:induction false} ProcessLinesKeepsLedger(opening: map<int, int>, s: Staged, lines: seq<CreateDetalleVentaDto>, ventaId: int, usuarioId: Option<int>, now: int)
    requires ProcessLines(s, lines, ventaId, usuarioId, now).Ok?
    requires Reconciled(opening, s.productos, s.movimientos)
    ensures var t := ProcessLines(s, lines, ventaId, usuarioId, now).value;
      Reconciled(opening, t.productos, t.movimientos)
    decreases |lines|
  {
    if lines != [] {
      var s' := LineStep(s, lines[0], ventaId, usuarioId, now).value;
      var m := SalidaFor(lines[0], ventaId, usuarioId, now);
      forall pid | pid in s'.productos
        ensures pid in opening && StockValue(s'.productos[pid]) == opening[pid] + Delta(s'.movimientos, pid)
      {
        DeltaAppendOne(s.movimientos, m, pid);
      }
      ProcessLinesKeepsLedger(opening, s', lines[1..], ventaId, usuarioId, now);
    }
  }

  // ---------------------------------------------------------------------------
  // The request
  // ---------------------------------------------------------------------------

  /** The answer of `PostVenta`, the failure a 400 reports, and the tables after it. */
  datatype SaleOutcome = SaleOutcome(status: Status, failure: Option<SaleFailure>, tables: Tables)

  /** The tables a sale starts its lines from: the header takes the next id. */
  function StartOfLines(t: Tables): Staged {
    Staged(t.productos, t.movimientosInventario, t.detalleventa, t.nextId + 1, 0)
  }

  /** The header of the sale once its lines add up to `total`. */
  function Header(dto: CreateVentaDto, now: int, total: int): Venta {
    Venta(Some(dto.fecha.GetOr(now)), Some(total), dto.usuarioId)
  }

  /** The part of `PostVenta` after the header is saved: the lines, then the
      final save and commit (`commitFails` stands for either failing). */
  function RecordSaleSpec(t: Tables, lines: seq<CreateDetalleVentaDto>, dto: CreateVentaDto, now: int, commitFails: bool): SaleOutcome {
    match ProcessLines(StartOfLines(t), lines, t.nextId, dto.usuarioId, now)
    case Err(f) => SaleOutcome(BadRequest, Some(f), t)
    case Ok(fin) =>
      if commitFails then
        SaleOutcome(InternalError(StorageException), None, t)
      else
        SaleOutcome(Created(t.nextId), None, t.(
          productos := fin.productos,
          movimientosInventario := fin.movimientos,
          detalleventa := fin.detalles,
          ventas := t.ventas[t.nextId := Header(dto, now, fin.total)],
          nextId := fin.nextId))
  }

  /** `PostVenta` on tables `t`. `headerSaveFails` stands for the storage
      failing at the first save, which stores the header. */
  function PostVentaSpec(t: Tables, dto: CreateVentaDto, now: int, headerSaveFails: bool, commitFails: bool): SaleOutcome {
    if dto.usuarioId.None? || !UsuarioExists(t.usuarios, t.personas, dto.usuarioId.value) then
      SaleOutcome(BadRequest, None, t)
    else if headerSaveFails then
      SaleOutcome(InternalError(StorageException), None, t)
    else if dto.detalles.None? then
      SaleOutcome(InternalError(NullReferenceException), None, t)
    else
      RecordSaleSpec(t, dto.detalles.value, dto, now, commitFails)
  }

  /** All or nothing: a sale that is not created leaves every table as it was. */
  lemma PostVentaAllOrNothing(t: Tables, dto: CreateVentaDto, now: int, headerSaveFails: bool, commitFails: bool)
    ensures var r := PostVentaSpec(t, dto, now, headerSaveFails, commitFails);
      !r.status.Created? ==> r.tables == t
  {
  }

  /** A sale for a missing user, or one whose persona is gone or flagged, is
      refused with a 400 and writes nothing. */
  lemma PostVentaRejectsUnknownUser(t: Tables, dto: CreateVentaDto, now: int, headerSaveFails: bool, commitFails: bool)
    requires dto.usuarioId.None? || !UsuarioExists(t.usuarios, t.personas, dto.usuarioId.value)
    ensures PostVentaSpec(t, dto, now, headerSaveFails, commitFails) == SaleOutcome(BadRequest, None, t)
  {
  }

  /** What a created sale leaves behind, stated table by table:
      - the header carries the date given or `now`, the user, and the sum of
        the line prices;
      - every product's stock falls by its lines' quantities and stays at or
        above 0;
      - one movement and one sale line per request line are added;
      - the other tables are untouched. */
  lemma PostVentaCreated(t: Tables, dto: CreateVentaDto, now: int, headerSaveFails: bool, commitFails: bool, pid: int)
    requires ValidTables(t)
    requires PostVentaSpec(t, dto, now, headerSaveFails, commitFails).status.Created?
    ensures var r := PostVentaSpec(t, dto, now, headerSaveFails, commitFails).tables;
      var lines := dto.detalles.value;
      && dto.usuarioId.Some? && UsuarioExists(t.usuarios, t.personas, dto.usuarioId.value)
      && PostVentaSpec(t, dto, now, headerSaveFails, commitFails).status == Created(t.nextId)
      && t.nextId !in t.ventas
      && r.ventas == t.ventas[t.nextId := Venta(Some(dto.fecha.GetOr(now)), Some(SumLinePrices(lines)), dto.usuarioId)]
      && r.productos.Keys == t.productos.Keys
      && (Mentions(lines, pid) ==>
            && pid in VisibleProductos(t.productos) && t.productos[pid].stock.Some?
            && r.productos[pid] == t.productos[pid].(stock := Some(t.productos[pid].stock.value - QtyFor(lines, pid)))
            && r.productos[pid].stock.value >= 0)
      && (!Mentions(lines, pid) && pid in t.productos ==> r.productos[pid] == t.productos[pid])
      && |r.movimientosInventario| == |t.movimientosInventario| + |lines|
      && r.movimientosInventario[..|t.movimientosInventario|] == t.movimientosInventario
      && r.nextId == t.nextId + 1 + |lines|
      && r.usuarios == t.usuarios && r.personas == t.personas && r.contratos == t.contratos
      && r.roles == t.roles && r.refreshTokens == t.refreshTokens && r.inventarios == t.inventarios
  {
    var lines := dto.detalles.value;
    var s := StartOfLines(t);
    ProcessLinesStock(s, lines, t.nextId, dto.usuarioId, now, pid);
    ProcessLinesMovements(s, lines, t.nextId, dto.usuarioId, now);
    ProcessLinesTotal(s, lines, t.nextId, dto.usuarioId, now);
    ProcessLinesDetails(s, lines, t.nextId, dto.usuarioId, now);
    if Mentions(lines, pid) {
      ProcessLinesStockNonNegative(s, lines, t.nextId, dto.usuarioId, now, pid);
    }
  }

  /** A sale keeps the database's invariant. */
  lemma PostVentaKeepsValid(t: Tables, dto: CreateVentaDto, now: int, headerSaveFails: bool, commitFails: bool)
    requires ValidTables(t)
    ensures ValidTables(PostVentaSpec(t, dto, now, headerSaveFails, commitFails).tables)
  {
    var r := PostVentaSpec(t, dto, now, headerSaveFails, commitFails);
    if r.status.Created? {
      var lines := dto.detalles.value;
      var s := StartOfLines(t);
      ProcessLinesDetails(s, lines, t.nextId, dto.usuarioId, now);
      forall pid | pid in r.tables.productos ensures 1 <= pid < r.tables.nextId {
        ProcessLinesStock(s, lines, t.nextId, dto.usuarioId, now, pid);
      }
    }
  }

  /** A sale keeps the stock ledger reconciled. */
  lemma PostVentaKeepsLedger(opening: map<int, int>, t: Tables, dto: CreateVentaDto, now: int, headerSaveFails: bool, commitFails: bool)
    requires Reconciled(opening, t.productos, t.movimientosInventario)
    ensures var r := PostVentaSpec(t, dto, now, headerSaveFails, commitFails).tables;
      Reconciled(opening, r.productos, r.movimientosInventario)
  {
    var r := PostVentaSpec(t, dto, now, headerSaveFails, commitFails);
    if r.status.Created? {
      ProcessLinesKeepsLedger(opening, StartOfLines(t), dto.detalles.value, t.nextId, dto.usuarioId, now);
    }
  }

  /** The `foreach` over the lines of `PostVenta`. Its changes (the stock
      decrements, the movements, the sale lines, the running total) are staged
      in the change tracker, here the local tables, starting from `start`;
      the final save writes them. */
  method StageLines(start: Staged, lines: seq<CreateDetalleVentaDto>, ventaId: int, usuarioId: Option<int>, now: int)
    returns (r: Result<Staged, SaleFailure>)
    ensures r == ProcessLines(start, lines, ventaId, usuarioId, now)
  {
    var productos, movimientos, detalles, nextId := start.productos, start.movimientos, start.detalles, start.nextId;
    var total := start.total;
    var i := 0;
    while i < |lines|
      invariant 0 <= i <= |lines|
      invariant ProcessLines(start, lines, ventaId, usuarioId, now)
        == ProcessLines(Staged(productos, movimientos, detalles, nextId, total), lines[i..], ventaId, usuarioId, now)
    {
      var line := lines[i];
      ghost var here := Staged(productos, movimientos, detalles, nextId, total);
      assert lines[i..][0] == line && lines[i..][1..] == lines[i + 1..];
      if line.productoId.None? || line.cantidad.None? {
        return Err(MissingData);
      }
      var pid, q := line.productoId.value, line.cantidad.value;
      var visible := VisibleProductos(productos);
      if pid !in visible || visible[pid].stock.None? || visible[pid].stock.value < q {
        return Err(InsufficientStock(pid, if pid in visible then visible[pid].stock.GetOr(0) else 0));
      }
      var producto := visible[pid];
      producto := producto.(stock := Some(producto.stock.value - q));
      productos := productos[pid := producto];
      movimientos := movimientos + [SalidaFor(line, ventaId, usuarioId, now)];
      detalles := detalles[nextId := DetailFor(line, ventaId)];
      nextId := nextId + 1;
      total := total + LinePrice(line).GetOr(0);
      assert LineStep(here, line, ventaId, usuarioId, now) == Ok(Staged(productos, movimientos, detalles, nextId, total));
      i := i + 1;
    }
    assert lines[i..] == [];
    return Ok(Staged(productos, movimientos, detalles, nextId, total));
  }

  /** The lines, the total, the final save and the commit of `PostVenta`,
      inside the transaction begun at `transaction` after the header was
      saved; any failure rolls back to `transaction`. */
  method RecordSale(db: EmpresaDbContext, transaction: Tables, lines: seq<CreateDetalleVentaDto>, dto: CreateVentaDto, now: int, commitFails: bool)
    returns (status: Status, failure: Option<SaleFailure>)
    requires db.Contents() == transaction.(
      ventas := transaction.ventas[transaction.nextId := Header(dto, now, 0)], nextId := transaction.nextId + 1)
    modifies db
    ensures SaleOutcome(status, failure, db.Contents()) == RecordSaleSpec(transaction, lines, dto, now, commitFails)
  {
    var ventaId := transaction.nextId;
    var r := StageLines(StartOfLines(transaction), lines, ventaId, dto.usuarioId, now);
    if r.Err? {
      db.Write(transaction);
      return BadRequest, Some(r.error);
    }
    if commitFails {
      db.Write(transaction);
      return InternalError(StorageException), None;
    }
    var fin := r.value;
    db.Write(transaction.(
      productos := fin.productos,
      movimientosInventario := fin.movimientos,
      detalleventa := fin.detalles,
      ventas := transaction.ventas[ventaId := Header(dto, now, fin.total)],
      nextId := fin.nextId));
    return Created(ventaId), None;
  }

  /** `PostVenta`: the sale transaction on the context. */
  method PostVenta(db: EmpresaDbContext, dto: CreateVentaDto, now: int, headerSaveFails: bool, commitFails: bool)
    returns (status: Status, failure: Option<SaleFailure>)
    requires db.Valid()
    modifies db
    ensures db.Valid()
    ensures SaleOutcome(status, failure, db.Contents()) == PostVentaSpec(old(db.Contents()), dto, now, headerSaveFails, commitFails)
  {
    ghost var t0 := db.Contents();
    if dto.usuarioId.None? || !UsuarioExists(db.usuarios, db.personas, dto.usuarioId.value) {
      return BadRequest, None;
    }
    var transaction := db.Contents();

    db.ventas := db.ventas[db.nextId := Header(dto, now, 0)];
    db.nextId := db.nextId + 1;
    if headerSaveFails {
      db.Write(transaction);
      return InternalError(StorageException), None;
    }
    if dto.detalles.None? {
      db.Write(transaction);
      return InternalError(NullReferenceException), None;
    }
    status, failure := RecordSale(db, transaction, dto.detalles.value, dto, now, commitFails);
    PostVentaKeepsValid(t0, dto, now, headerSaveFails, commitFails);
  }

  // ---------------------------------------------------------------------------
  // PutVenta
  // ---------------------------------------------------------------------------

  /** `PutVenta` on tables `t`. The sale is looked up without a filter. A
      missing user id throws before anything is written. A change of user is
      checked as at creation. The mapping copies only the user: a supplied
      total then overwrites the stored one, whatever the lines add up to. A
      failing save (a DbUpdateException) is answered with a 400. */
  function PutVentaSpec(t: Tables, id: int, dto: CreateVentaDto, saveFails: bool): Outcome {
    if id !in t.ventas then
      Outcome(NotFound, t)
    else if dto.usuarioId.None? then
      Outcome(InternalError(InvalidOperationException), t)
    else
      var venta := t.ventas[id];
      if venta.usuarioId != dto.usuarioId && !UsuarioExists(t.usuarios, t.personas, dto.usuarioId.value) then
        Outcome(BadRequest, t)
      else if saveFails then
        Outcome(BadRequest, t)
      else
        var updated := venta.(usuarioId := dto.usuarioId, total := if dto.total.Some? then dto.total else venta.total);
        Outcome(NoContent, t.(ventas := t.ventas[id := updated]))
  }

  /** An update changes only that sale's user and, when one is supplied, its
      total; the date and every other table are kept. The total need not be
      the sum of the sale's lines afterwards. */
  lemma PutVentaEffect(t: Tables, id: int, dto: CreateVentaDto, saveFails: bool)
    ensures var r := PutVentaSpec(t, id, dto, saveFails);
      && (r.status == NoContent <==>
            id in t.ventas && dto.usuarioId.Some? && !saveFails
            && (t.ventas[id].usuarioId == dto.usuarioId || UsuarioExists(t.usuarios, t.personas, dto.usuarioId.value)))
      && (r.status != NoContent ==> r.tables == t)
      && (r.status == NoContent ==>
            && r.tables.ventas.Keys == t.ventas.Keys
            && r.tables.ventas[id].fecha == t.ventas[id].fecha
            && r.tables.ventas[id].usuarioId == dto.usuarioId
            && r.tables.ventas[id].total == (if dto.total.Some? then dto.total else t.ventas[id].total)
            && (forall k :: k in t.ventas && k != id ==> r.tables.ventas[k] == t.ventas[k])
            && r.tables == t.(ventas := r.tables.ventas))
  {
  }

  method PutVenta(db: EmpresaDbContext, id: int, dto: CreateVentaDto, saveFails: bool) returns (status: Status)
    requires db.Valid()
    modifies db
    ensures db.Valid()
    ensures Outcome(status, db.Contents()) == PutVentaSpec(old(db.Contents()), id, dto, saveFails)
  {
    if id !in db.ventas {
      return NotFound;
    }
    var venta := db.ventas[id];
    if dto.usuarioId.None? {
      return InternalError(InvalidOperationException);
    }
    if venta.usuarioId != dto.usuarioId {
      if !UsuarioExists(db.usuarios, db.personas, dto.usuarioId.value) {
        return BadRequest;
      }
    }
    venta := venta.(usuarioId := dto.usuarioId);
    if dto.total.Some? {
      venta := venta.(total := dto.total);
    }
    if saveFails {
      return BadRequest;
    }
    db.ventas := db.ventas[id := venta];
    return NoContent;
  }
}
