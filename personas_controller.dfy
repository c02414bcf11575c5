/** People. A create needs every required field and a Cedula no visible
    person holds; the unique index on Cedula also refuses one held by a
    soft-deleted person. An update maps every request field onto a visible
    person. A delete flags the person and the linked user, stamped `now`,
    inside one transaction. */
module PersonasController {
  import opened Common
  import opened Models
  import opened EmpresaDb

  /** `AnyAsync(p => p.Cedula == cedula)` through the query filter. */
  predicate CedulaTakenVisible(personas: map<int, Persona>, cedula: Option<string>) {
    exists k :: k in VisiblePersonas(personas) && VisiblePersonas(personas)[k].cedula == cedula
  }

  /** The unique index on Cedula sees every row, flagged or not, except the
      row `self` being written. */
  predicate CedulaClash(personas: map<int, Persona>, self: int, cedula: Option<string>) {
    cedula.Some? && exists k :: k in personas && k != self && personas[k].cedula == cedula
  }

  /** The row the request maps to: the six request fields over `p`. */
  function MapPersona(dto: CreatePersonaDto, p: Persona): Persona {
    p.(nombre := dto.nombre, apellido := dto.apellido, cedula := dto.cedula,
      telefono := dto.telefono, direccion := dto.direccion, cargo := dto.cargo)
  }

  predicate RequiredFieldsPresent(dto: CreatePersonaDto) {
    && !IsNullOrWhiteSpace(dto.nombre) && !IsNullOrWhiteSpace(dto.apellido)
    && !IsNullOrWhiteSpace(dto.cedula) && !IsNullOrWhiteSpace(dto.telefono)
    && !IsNullOrWhiteSpace(dto.cargo)
  }

  /** `PostPersona` on tables `t`. Every save failure is a DbUpdateException,
      which the action answers with BadRequest. */
  function PostPersonaSpec(t: Tables, dto: CreatePersonaDto, saveFails: bool): Outcome {
    if !RequiredFieldsPresent(dto) then
      Outcome(BadRequest, t)
    else if CedulaTakenVisible(t.personas, dto.cedula) then
      Outcome(BadRequest, t)
    else if CedulaClash(t.personas, t.nextId, dto.cedula) || saveFails then
      Outcome(BadRequest, t)
    else
      var p := MapPersona(dto, Persona(None, None, None, None, None, None, false, None));
      Outcome(Created(t.nextId), t.(personas := t.personas[t.nextId := p], nextId := t.nextId + 1))
  }

  /** What `PostPersona` does:
      - it creates a person exactly when the required fields are present,
        no row at all holds the Cedula and the save works, so a Cedula that
        only a soft-deleted person holds is refused too;
      - the new row carries the request's fields, unflagged and visible;
      - a refused request changes nothing. */
  lemma PostPersonaEffect(t: Tables, dto: CreatePersonaDto, saveFails: bool)
    requires ValidTables(t)
    ensures var r := PostPersonaSpec(t, dto, saveFails);
      && (r.status.Created? <==>
            RequiredFieldsPresent(dto) && !(exists k :: k in t.personas && t.personas[k].cedula == dto.cedula) && !saveFails)
      && (!r.status.Created? ==> r.status == BadRequest && r.tables == t)
      && (r.status.Created? ==>
            var p := r.tables.personas[t.nextId];
            && r.status == Created(t.nextId) && t.nextId !in t.personas
            && r.tables.personas == t.personas[t.nextId := p]
            && p.nombre == dto.nombre && p.apellido == dto.apellido && p.cedula == dto.cedula
            && p.telefono == dto.telefono && p.direccion == dto.direccion && p.cargo == dto.cargo
            && t.nextId in VisiblePersonas(r.tables.personas)
            && r.tables == t.(personas := r.tables.personas, nextId := t.nextId + 1))
  {
    var r := PostPersonaSpec(t, dto, saveFails);
    if RequiredFieldsPresent(dto) && (exists k :: k in t.personas && t.personas[k].cedula == dto.cedula) {
      var k :| k in t.personas && t.personas[k].cedula == dto.cedula;
      assert k != t.nextId;
      assert CedulaClash(t.personas, t.nextId, dto.cedula);
    }
  }

  /** A person written with a Cedula that clashes with no other row keeps
      the unique index. */
  lemma WriteKeepsUniqueCedulas(personas: map<int, Persona>, id: int, p: Persona)
    requires UniqueCedulas(personas)
    requires !CedulaClash(personas, id, p.cedula)
    ensures UniqueCedulas(personas[id := p])
  {
  }

  lemma PostPersonaKeepsValid(t: Tables, dto: CreatePersonaDto, saveFails: bool)
    requires ValidTables(t)
    ensures ValidTables(PostPersonaSpec(t, dto, saveFails).tables)
  {
    var r := PostPersonaSpec(t, dto, saveFails);
    if r.status.Created? {
      WriteKeepsUniqueCedulas(t.personas, t.nextId, r.tables.personas[t.nextId]);
    }
  }

  method PostPersona(db: EmpresaDbContext, dto: CreatePersonaDto, saveFails: bool) returns (status: Status)
    requires db.Valid()
    modifies db
    ensures db.Valid()
    ensures Outcome(status, db.Contents()) == PostPersonaSpec(old(db.Contents()), dto, saveFails)
  {
    PostPersonaKeepsValid(db.Contents(), dto, saveFails);
    if IsNullOrWhiteSpace(dto.nombre) || IsNullOrWhiteSpace(dto.apellido) || IsNullOrWhiteSpace(dto.cedula)
      || IsNullOrWhiteSpace(dto.telefono) || IsNullOrWhiteSpace(dto.cargo)
    {
      return BadRequest;
    }
    var existeCedula := CedulaTakenVisible(db.personas, dto.cedula);
    if existeCedula {
      return BadRequest;
    }
    var persona := MapPersona(dto, Persona(None, None, None, None, None, None, false, None));
    var id := db.nextId;
    if CedulaClash(db.personas, id, persona.cedula) || saveFails {
      return BadRequest;
    }
    db.personas := db.personas[id := persona];
    db.nextId := id + 1;
    return Created(id);
  }

  /** `PutPersona` on tables `t`. The lookup goes through the query filter,
      so a soft-deleted person is NotFound. The request fields are not
      validated: a missing Nombre or Apellido breaks a NOT NULL column and a
      clashing Cedula the unique index, and the action answers both, like any
      other failing save, with BadRequest. */
  function PutPersonaSpec(t: Tables, id: int, dto: CreatePersonaDto, saveFails: bool): Outcome {
    if id <= 0 then
      Outcome(BadRequest, t)
    else if id !in VisiblePersonas(t.personas) then
      Outcome(NotFound, t)
    else if dto.nombre.None? || dto.apellido.None? || CedulaClash(t.personas, id, dto.cedula) || saveFails then
      Outcome(BadRequest, t)
    else
      Outcome(NoContent, t.(personas := t.personas[id := MapPersona(dto, t.personas[id])]))
  }

  /** What `PutPersona` does:
      - an accepted update writes the six request fields onto the row and
        keeps its flag and deletion date;
      - it is accepted exactly when the id is positive, the person is
        visible, both names are given, no other row holds the Cedula and the
        save works;
      - every other row is kept, and a refused request changes nothing. */
  lemma PutPersonaEffect(t: Tables, id: int, dto: CreatePersonaDto, saveFails: bool)
    ensures var r := PutPersonaSpec(t, id, dto, saveFails);
      && (r.status == NoContent <==>
            && id > 0 && id in VisiblePersonas(t.personas) && dto.nombre.Some? && dto.apellido.Some?
            && !CedulaClash(t.personas, id, dto.cedula) && !saveFails)
      && (id > 0 && id !in VisiblePersonas(t.personas) ==> r.status == NotFound)
      && (r.status != NoContent ==> r.tables == t)
      && (r.status == NoContent ==>
            var p := r.tables.personas[id];
            && p.nombre == dto.nombre && p.apellido == dto.apellido && p.cedula == dto.cedula
            && p.telefono == dto.telefono && p.direccion == dto.direccion && p.cargo == dto.cargo
            && !p.estaEliminado && p.fechaEliminacion == t.personas[id].fechaEliminacion
            && r.tables.personas.Keys == t.personas.Keys
            && (forall k :: k in t.personas && k != id ==> r.tables.personas[k] == t.personas[k])
            && r.tables == t.(personas := r.tables.personas))
  {
  }

  lemma PutPersonaKeepsValid(t: Tables, id: int, dto: CreatePersonaDto, saveFails: bool)
    requires ValidTables(t)
    ensures ValidTables(PutPersonaSpec(t, id, dto, saveFails).tables)
  {
    var r := PutPersonaSpec(t, id, dto, saveFails);
    if r.status == NoContent {
      WriteKeepsUniqueCedulas(t.personas, id, r.tables.personas[id]);
    }
  }

  method PutPersona(db: EmpresaDbContext, id: int, dto: CreatePersonaDto, saveFails: bool) returns (status: Status)
    requires db.Valid()
    modifies db
    ensures db.Valid()
    ensures Outcome(status, db.Contents()) == PutPersonaSpec(old(db.Contents()), id, dto, saveFails)
  {
    PutPersonaKeepsValid(db.Contents(), id, dto, saveFails);
    if id <= 0 {
      return BadRequest;
    }
    if id !in VisiblePersonas(db.personas) {
      return NotFound;
    }
    var persona := MapPersona(dto, db.personas[id]);
    if persona.nombre.None? || persona.apellido.None? || CedulaClash(db.personas, id, persona.cedula) || saveFails {
      return BadRequest;
    }
    db.personas := db.personas[id := persona];
    return NoContent;
  }

  /** The visible users linked to person `id`, flagged and stamped `now`:
      no user of that person stays visible, and every other row, hidden
      users of that person included, is kept as it was. */
  function FlagLinkedUsuarios(usuarios: map<int, Usuario>, id: int, now: int): (r: map<int, Usuario>)
    ensures r.Keys == usuarios.Keys
    ensures forall k :: k in VisibleUsuarios(usuarios) && usuarios[k].personaId == id ==>
      r[k] == usuarios[k].(estaEliminado := true, fechaEliminacion := Some(now))
    ensures forall k :: k in usuarios && (k !in VisibleUsuarios(usuarios) || usuarios[k].personaId != id) ==>
      r[k] == usuarios[k]
    ensures forall k :: k in usuarios && usuarios[k].personaId == id ==> k !in VisibleUsuarios(r)
    ensures forall k :: k in usuarios && usuarios[k].personaId != id ==> (k in VisibleUsuarios(r) <==> k in VisibleUsuarios(usuarios))
  {
    map k | k in usuarios ::
      if usuarios[k].personaId == id && !usuarios[k].estaEliminado then
        usuarios[k].(estaEliminado := true, fechaEliminacion := Some(now))
      else
        usuarios[k]
  }

  /** `DeletePersona` on tables `t`: the person and its linked user are
      flagged and stamped `now`, saved and committed in one transaction; a
      failing save or commit rolls both back and the exception leaves the
      action. */
  function DeletePersonaSpec(t: Tables, id: int, now: int, saveFails: bool, commitFails: bool): Outcome {
    if id !in VisiblePersonas(t.personas) then
      Outcome(NotFound, t)
    else if saveFails || commitFails then
      Outcome(InternalError(StorageException), t)
    else
      var p := t.personas[id].(estaEliminado := true, fechaEliminacion := Some(now));
      Outcome(NoContent, t.(personas := t.personas[id := p], usuarios := FlagLinkedUsuarios(t.usuarios, id, now)))
  }

  /** What `DeletePersona` does:
      - a hidden or missing person is not found; a failing save or commit
        is a server error;
      - an accepted delete hides the person and every user linked to it,
        with the deletion date `now` on each;
      - it keeps every row and leaves other people and users as they were;
      - a refused or rolled-back delete changes nothing. */
  lemma DeletePersonaEffect(t: Tables, id: int, now: int, saveFails: bool, commitFails: bool)
    ensures var r := DeletePersonaSpec(t, id, now, saveFails, commitFails);
      && (r.status == NoContent <==> id in VisiblePersonas(t.personas) && !saveFails && !commitFails)
      && (r.status != NoContent ==> r.tables == t)
      && (id !in VisiblePersonas(t.personas) ==> r.status == NotFound)
      && (id in VisiblePersonas(t.personas) && (saveFails || commitFails) ==> r.status == InternalError(StorageException))
      && (r.status == NoContent ==>
            && r.tables.personas.Keys == t.personas.Keys && r.tables.usuarios.Keys == t.usuarios.Keys
            && id !in VisiblePersonas(r.tables.personas)
            && r.tables.personas[id] == t.personas[id].(estaEliminado := true, fechaEliminacion := Some(now))
            && (forall k :: k in t.personas && k != id ==> r.tables.personas[k] == t.personas[k])
            && (forall k :: k in t.usuarios && t.usuarios[k].personaId == id ==> k !in VisibleUsuarios(r.tables.usuarios))
            && (forall k :: k in VisibleUsuarios(t.usuarios) && t.usuarios[k].personaId == id ==>
                  r.tables.usuarios[k].fechaEliminacion == Some(now))
            && (forall k :: k in t.usuarios && t.usuarios[k].personaId != id ==> r.tables.usuarios[k] == t.usuarios[k])
            && r.tables == t.(personas := r.tables.personas, usuarios := r.tables.usuarios))
  {
  }

  lemma DeletePersonaKeepsValid(t: Tables, id: int, now: int, saveFails: bool, commitFails: bool)
    requires ValidTables(t)
    ensures ValidTables(DeletePersonaSpec(t, id, now, saveFails, commitFails).tables)
  {
    var r := DeletePersonaSpec(t, id, now, saveFails, commitFails);
    if r.status == NoContent {
      var u := r.tables.usuarios;
      forall a, b | a in u && b in u && a != b ensures u[a].correo != u[b].correo {
        assert u[a].correo == t.usuarios[a].correo && u[b].correo == t.usuarios[b].correo;
      }
    }
  }

  method DeletePersona(db: EmpresaDbContext, id: int, now: int, saveFails: bool, commitFails: bool) returns (status: Status)
    requires db.Valid()
    modifies db
    ensures db.Valid()
    ensures Outcome(status, db.Contents()) == DeletePersonaSpec(old(db.Contents()), id, now, saveFails, commitFails)
  {
    DeletePersonaKeepsValid(db.Contents(), id, now, saveFails, commitFails);
    var transaction := db.Contents();
    if id !in VisiblePersonas(db.personas) {
      return NotFound;
    }
    var persona := db.personas[id].(estaEliminado := true, fechaEliminacion := Some(now));
    db.personas := db.personas[id := persona];
    db.usuarios := FlagLinkedUsuarios(db.usuarios, id, now);
    if saveFails || commitFails {
      db.Write(transaction);
      return InternalError(StorageException);
    }
    return NoContent;
  }
}
