/** The inventory ledger: the movement log explains every product's stock.
    Entries of kind "Entrada" and "Ajuste" add their quantity, "Salida" takes
    it away, and a movement without a quantity has no effect. A product's
    stock is reconciled with the log when it equals its opening stock plus the
    effect of every movement that names it. */
module StockLedger {
  import opened Common
  import opened Models

  /** The stock a product counts as holding: `Stock ?? 0`. */
  function StockValue(p: Producto): int {
    p.stock.GetOr(0)
  }

  /** The signed change a movement makes to its product's stock. */
  function MovementEffect(m: MovimientoInventario): int {
    if m.tipo == "Entrada" || m.tipo == "Ajuste" then m.cantidad.GetOr(0)
    else if m.tipo == "Salida" then -m.cantidad.GetOr(0)
    else 0
  }

  /** The summed effect on product `pid` of the movements in `movs`. */
  function Delta(movs: seq<MovimientoInventario>, pid: int): int {
    if movs == [] then
      0
    else
      var last := movs[|movs| - 1];
      Delta(movs[..|movs| - 1], pid) + (if last.productoId == Some(pid) then MovementEffect(last) else 0)
  }

  /** Every product's stock equals its opening stock plus its movements. */
  ghost predicate Reconciled(opening: map<int, int>, productos: map<int, Producto>, movs: seq<MovimientoInventario>) {
    forall pid :: pid in productos ==> pid in opening && StockValue(productos[pid]) == opening[pid] + Delta(movs, pid)
  }

  /** The ledger is additive: the effect of a log extended by `more` is the
      effect of the old log plus the effect of `more`. */
  lemma {:induction false} DeltaAppend(movs: seq<MovimientoInventario>, more: seq<MovimientoInventario>, pid: int)
    ensures Delta(movs + more, pid) == Delta(movs, pid) + Delta(more, pid)
    decreases |more|
  {
    if more == [] {
      assert movs + more == movs;
    } else {
      var init := more[..|more| - 1];
      assert (movs + more)[..|movs + more| - 1] == movs + init;
      assert (movs + more)[|movs + more| - 1] == more[|more| - 1];
      DeltaAppend(movs, init, pid);
    }
  }

  /** Appending one movement changes only its own product's ledger. */
  lemma DeltaAppendOne(movs: seq<MovimientoInventario>, m: MovimientoInventario, pid: int)
    ensures Delta(movs + [m], pid) == Delta(movs, pid) + (if m.productoId == Some(pid) then MovementEffect(m) else 0)
  {
    assert (movs + [m])[..|movs + [m]| - 1] == movs;
  }
}
