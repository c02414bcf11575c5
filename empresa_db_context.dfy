/** The unit of work shared by every request: the tables, the soft-delete query
    filter that hides flagged rows from every read, and the interception that
    turns pending deletes of soft-deletable entities into flag updates before
    each save. */
module EmpresaDb {
  import opened Common
  import opened Models

  // ---------------------------------------------------------------------------
  // The query filter `!EstaEliminado` on the four ISoftDelete types
  // ---------------------------------------------------------------------------

  /** What a read of a soft-deletable table returns: exactly the rows whose
      flag is not set. */
  function QueryFilter<T>(table: map<int, T>, isDeleted: T -> bool): (visible: map<int, T>)
    ensures forall k :: k in visible <==> k in table && !isDeleted(table[k])
    ensures forall k :: k in visible ==> visible[k] == table[k]
  {
    map k | k in table && !isDeleted(table[k]) :: table[k]
  }

  predicate ContratoEliminado(c: Contrato) { c.estaEliminado }
  predicate PersonaEliminada(p: Persona) { p.estaEliminado }
  predicate ProductoEliminado(p: Producto) { p.estaEliminado }
  predicate UsuarioEliminado(u: Usuario) { u.estaEliminado }

  function VisibleContratos(m: map<int, Contrato>): map<int, Contrato> { QueryFilter(m, ContratoEliminado) }
  function VisiblePersonas(m: map<int, Persona>): map<int, Persona> { QueryFilter(m, PersonaEliminada) }
  function VisibleProductos(m: map<int, Producto>): map<int, Producto> { QueryFilter(m, ProductoEliminado) }
  function VisibleUsuarios(m: map<int, Usuario>): map<int, Usuario> { QueryFilter(m, UsuarioEliminado) }

  /** Every key of `m` is an id handed out before `next` (ids start at 1). */
  ghost predicate IdsBelow<T>(m: map<int, T>, next: int) {
    forall k :: k in m ==> 1 <= k < next
  }

  /** The unique index on `Usuario.Correo`. */
  ghost predicate UniqueCorreos(usuarios: map<int, Usuario>) {
    forall a, b :: a in usuarios && b in usuarios && a != b ==> usuarios[a].correo != usuarios[b].correo
  }

  /** The unique index on `Persona.Cedula` (rows without a Cedula do not clash). */
  ghost predicate UniqueCedulas(personas: map<int, Persona>) {
    forall a, b :: a in personas && b in personas && a != b && personas[a].cedula.Some? ==>
      personas[a].cedula != personas[b].cedula
  }

  /** The contents of every table. One identity counter stands for the tables'
      auto-increment columns: each inserted row takes `nextId`. The movement log
      and the refresh-token table are kept in insertion order. */
  datatype Tables = Tables(
    contratos: map<int, Contrato>,
    detalleventa: map<int, Detalleventum>,
    inventarios: set<int>,
    personas: map<int, Persona>,
    productos: map<int, Producto>,
    roles: map<int, Role>,
    usuarios: map<int, Usuario>,
    ventas: map<int, Venta>,
    movimientosInventario: seq<MovimientoInventario>,
    refreshTokens: seq<RefreshToken>,
    nextId: int)

  /** What the database guarantees of its contents: keys were handed out by
      the identity counter, and the two unique indexes hold. */
  ghost predicate ValidTables(t: Tables) {
    && t.nextId >= 1
    && IdsBelow(t.contratos, t.nextId) && IdsBelow(t.detalleventa, t.nextId)
    && IdsBelow(t.personas, t.nextId) && IdsBelow(t.productos, t.nextId)
    && IdsBelow(t.roles, t.nextId) && IdsBelow(t.usuarios, t.nextId)
    && IdsBelow(t.ventas, t.nextId)
    && UniqueCorreos(t.usuarios)
    && UniqueCedulas(t.personas)
  }

  /** The answer of a request together with the tables it leaves behind. */
  datatype Outcome = Outcome(status: Status, tables: Tables)

  /** The context of one request. Its fields are the tables; a transaction is
      a copy of `Contents()` taken when it begins, written back by a rollback. */
  class EmpresaDbContext {
    var contratos: map<int, Contrato>
    var detalleventa: map<int, Detalleventum>
    var inventarios: set<int>
    var personas: map<int, Persona>
    var productos: map<int, Producto>
    var roles: map<int, Role>
    var usuarios: map<int, Usuario>
    var ventas: map<int, Venta>
    var movimientosInventario: seq<MovimientoInventario>
    var refreshTokens: seq<RefreshToken>
    var nextId: int

    function Contents(): Tables
      reads this
    {
      Tables(contratos, detalleventa, inventarios, personas, productos, roles, usuarios, ventas,
        movimientosInventario, refreshTokens, nextId)
    }

    ghost predicate Valid()
      reads this
    {
      ValidTables(Contents())
    }

    constructor (inventarios: set<int>)
      ensures Valid()
      ensures Contents() == Tables(map[], map[], inventarios, map[], map[], map[], map[], map[], [], [], 1)
    {
      contratos, detalleventa, this.inventarios, personas := map[], map[], inventarios, map[];
      productos, roles, usuarios, ventas := map[], map[], map[], map[];
      movimientosInventario, refreshTokens, nextId := [], [], 1;
    }

    /** Writes `t` to every table. A save writes the changes staged by a
        request; a rollback writes back the copy taken when the transaction
        began. */
    method Write(t: Tables)
      modifies this
      ensures Contents() == t
    {
      contratos := t.contratos;
      detalleventa := t.detalleventa;
      inventarios := t.inventarios;
      personas := t.personas;
      productos := t.productos;
      roles := t.roles;
      usuarios := t.usuarios;
      ventas := t.ventas;
      movimientosInventario := t.movimientosInventario;
      refreshTokens := t.refreshTokens;
      nextId := t.nextId;
    }
  }

  // ---------------------------------------------------------------------------
  // The change tracker and OnBeforeSaving
  // ---------------------------------------------------------------------------

  datatype EntityType =
    | ContratoEntity | DetalleventumEntity | InventarioEntity | PersonaEntity | ProductoEntity
    | RoleEntity | UsuarioEntity | VentaEntity | MovimientoInventarioEntity | RefreshTokenEntity

  /** The entity types that implement ISoftDelete. */
  predicate IsSoftDelete(t: EntityType) {
    t == ContratoEntity || t == PersonaEntity || t == ProductoEntity || t == UsuarioEntity
  }

  datatype EntityState = Detached | Unchanged | Deleted | Modified | Added

  /** A change-tracker entry: the entity's type, its pending state, and (for the
      soft-deletable types) the entity's EstaEliminado and FechaEliminacion. */
  datatype EntityEntry = EntityEntry(
    entityType: EntityType,
    state: EntityState,
    estaEliminado: bool,
    fechaEliminacion: Option<int>)

  /** The rewrite OnBeforeSaving applies to one entry. */
  function InterceptEntry(e: EntityEntry): (r: EntityEntry)
    ensures r.entityType == e.entityType && r.fechaEliminacion == e.fechaEliminacion
    ensures e.state != Deleted ==> r == e
    ensures e.state == Deleted && IsSoftDelete(e.entityType) ==> r.state == Modified && r.estaEliminado
    ensures e.state == Deleted && !IsSoftDelete(e.entityType) ==> r == e
  {
    if e.state == Deleted && IsSoftDelete(e.entityType) then
      e.(state := Modified, estaEliminado := true)
    else
      e
  }

  function Intercepted(entries: seq<EntityEntry>): (r: seq<EntityEntry>)
    ensures |r| == |entries|
    ensures forall i :: 0 <= i < |entries| ==> r[i] == InterceptEntry(entries[i])
  {
    seq(|entries|, i requires 0 <= i < |entries| => InterceptEntry(entries[i]))
  }

  /** After interception no soft-deletable entity is still pending a physical
      delete, and the only entries still Deleted are the ones that were. */
  lemma InterceptedLeavesNoSoftDelete(entries: seq<EntityEntry>)
    ensures forall i :: 0 <= i < |entries| && IsSoftDelete(entries[i].entityType) ==>
      Intercepted(entries)[i].state != Deleted
    ensures forall i :: 0 <= i < |entries| ==>
      (Intercepted(entries)[i].state == Deleted <==>
        entries[i].state == Deleted && !IsSoftDelete(entries[i].entityType))
  {
  }

  /** Interception run twice gives the same entries as run once. */
  lemma {:induction false} InterceptedIdempotent(entries: seq<EntityEntry>)
    ensures Intercepted(Intercepted(entries)) == Intercepted(entries)
  {
    var once := Intercepted(entries);
    var twice := Intercepted(once);
    forall i | 0 <= i < |entries| ensures twice[i] == once[i] {
      assert InterceptEntry(InterceptEntry(entries[i])) == InterceptEntry(entries[i]);
    }
  }

  /** Whether the base save writes an entry. */
  predicate IsPending(e: EntityEntry) {
    e.state in {Added, Modified, Deleted}
  }

  /** The number of entries that a save writes: all of them when every entry
      is pending, none when none is. */
  function PendingCount(entries: seq<EntityEntry>): (n: nat)
    ensures n <= |entries|
    ensures (forall i :: 0 <= i < |entries| ==> IsPending(entries[i])) ==> n == |entries|
    ensures (forall i :: 0 <= i < |entries| ==> !IsPending(entries[i])) ==> n == 0
  {
    if entries == [] then
      0
    else
      var last := if IsPending(entries[|entries| - 1]) then 1 else 0;
      PendingCount(entries[..|entries| - 1]) + last
  }

  /** Interception never makes an entry pending or settles one: a soft
      delete is still written, as an update. So a save writes as many
      entries as were pending before the interceptor ran. */
  lemma {:induction false} PendingCountIntercepted(entries: seq<EntityEntry>)
    ensures PendingCount(Intercepted(entries)) == PendingCount(entries)
  {
    if entries != [] {
      var n := |entries| - 1;
      assert Intercepted(entries)[..n] == Intercepted(entries[..n]);
      PendingCountIntercepted(entries[..n]);
    }
  }

  /** OnBeforeSaving: every Deleted entry of an ISoftDelete entity becomes
      Modified with its flag set; FechaEliminacion is left as it was. */
  method OnBeforeSaving(entries: array<EntityEntry>)
    modifies entries
    ensures entries[..] == Intercepted(old(entries[..]))
  {
    var i := 0;
    while i < entries.Length
      invariant 0 <= i <= entries.Length
      invariant forall k :: 0 <= k < i ==> entries[k] == InterceptEntry(old(entries[k]))
      invariant forall k :: i <= k < entries.Length ==> entries[k] == old(entries[k])
    {
      var entry := entries[i];
      if entry.state == Deleted {
        if IsSoftDelete(entry.entityType) {
          entries[i] := entry.(state := Modified, estaEliminado := true);
        }
      }
      i := i + 1;
    }
  }

  /** `SaveChanges()`: interception first, then the base save, which writes the
      pending entries and returns how many it wrote. */
  method SaveChanges(entries: array<EntityEntry>) returns (written: nat)
    modifies entries
    ensures entries[..] == Intercepted(old(entries[..]))
    ensures written == PendingCount(entries[..]) == PendingCount(old(entries[..]))
  {
    OnBeforeSaving(entries);
    PendingCountIntercepted(old(entries[..]));
    written := PendingCount(entries[..]);
  }

  /** `SaveChangesAsync()`: the same interception before the same base save. */
  method SaveChangesAsync(entries: array<EntityEntry>) returns (written: nat)
    modifies entries
    ensures entries[..] == Intercepted(old(entries[..]))
    ensures written == PendingCount(entries[..]) == PendingCount(old(entries[..]))
  {
    OnBeforeSaving(entries);
    PendingCountIntercepted(old(entries[..]));
    written := PendingCount(entries[..]);
  }

  /** Removing one tracked entity and saving: the entry the base save then
      sees. Controllers use it for `Remove(x); SaveChanges()`. */
  method SaveRemoval(t: EntityType, estaEliminado: bool, fechaEliminacion: Option<int>)
    returns (saved: EntityEntry)
    ensures saved == InterceptEntry(EntityEntry(t, Deleted, estaEliminado, fechaEliminacion))
  {
    var entries := new EntityEntry[] [EntityEntry(t, Deleted, estaEliminado, fechaEliminacion)];
    var written := SaveChangesAsync(entries);
    saved := entries[0];
  }

  /** What the base save does with the entry of a removed row `id`: a Deleted
      entry removes the row, a Modified one writes `updated` (the row with the
      entry's flag and date) in its place. */
  function ApplyRemoval<T>(table: map<int, T>, id: int, e: EntityEntry, updated: T): map<int, T> {
    if e.state == Deleted then table - {id} else table[id := updated]
  }
}
