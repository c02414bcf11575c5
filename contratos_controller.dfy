/** Employment contracts. A create or an update needs a positive wage, a
    positive person id and a non-blank position; a create, and an update
    that moves the contract to another person, also need that person to be
    visible. A delete is a soft delete. */
module ContratosController {
  import opened Common
  import opened Models
  import opened EmpresaDb

  predicate ValidContratoDto(dto: CreateContratoDto) {
    && dto.sueldo.Some? && dto.sueldo.value > 0
    && dto.personaId.Some? && dto.personaId.value > 0
    && !IsNullOrWhiteSpace(dto.cargo)
  }

  /** What every contract written by this controller satisfies. */
  predicate WellFormedContrato(c: Contrato) {
    && c.sueldo.Some? && c.sueldo.value > 0
    && c.personaId.Some? && c.personaId.value > 0
    && !IsNullOrWhiteSpace(c.cargo)
  }

  predicate AllWellFormed(contratos: map<int, Contrato>) {
    forall k :: k in contratos ==> WellFormedContrato(contratos[k])
  }

  /** `AnyAsync(p => p.IdPersonas == id && p.EstaEliminado == false)` */
  predicate PersonaActiva(t: Tables, id: int) {
    id in VisiblePersonas(t.personas)
  }

  /** `PostContrato` on tables `t`. Every save failure is a DbUpdateException,
      answered with BadRequest. */
  function PostContratoSpec(t: Tables, dto: CreateContratoDto, saveFails: bool): Outcome {
    if !ValidContratoDto(dto) then
      Outcome(BadRequest, t)
    else if !PersonaActiva(t, dto.personaId.value) || saveFails then
      Outcome(BadRequest, t)
    else
      var c := Contrato(dto.sueldo, dto.fechaInicio, dto.fechaFinal, dto.cargo, false, None, dto.personaId);
      Outcome(Created(t.nextId), t.(contratos := t.contratos[t.nextId := c], nextId := t.nextId + 1))
  }

  /** What `PostContrato` does:
      - it creates a contract exactly when the request is valid, the person
        is visible and the save works;
      - the new row holds the request's fields, unflagged;
      - a refused request changes nothing. */
  lemma PostContratoEffect(t: Tables, dto: CreateContratoDto, saveFails: bool)
    requires ValidTables(t)
    ensures var r := PostContratoSpec(t, dto, saveFails);
      && (r.status.Created? <==> ValidContratoDto(dto) && PersonaActiva(t, dto.personaId.value) && !saveFails)
      && (!r.status.Created? ==> r.status == BadRequest && r.tables == t)
      && (r.status.Created? ==>
            && r.status == Created(t.nextId) && t.nextId !in t.contratos
            && r.tables.contratos == t.contratos[t.nextId := Contrato(dto.sueldo, dto.fechaInicio, dto.fechaFinal, dto.cargo, false, None, dto.personaId)]
            && t.nextId in VisibleContratos(r.tables.contratos)
            && r.tables == t.(contratos := r.tables.contratos, nextId := t.nextId + 1))
  {
  }

  lemma PostContratoKeepsValid(t: Tables, dto: CreateContratoDto, saveFails: bool)
    requires ValidTables(t)
    ensures ValidTables(PostContratoSpec(t, dto, saveFails).tables)
  {
  }

  method PostContrato(db: EmpresaDbContext, dto: CreateContratoDto, saveFails: bool) returns (status: Status)
    requires db.Valid()
    modifies db
    ensures db.Valid()
    ensures Outcome(status, db.Contents()) == PostContratoSpec(old(db.Contents()), dto, saveFails)
  {
    PostContratoKeepsValid(db.Contents(), dto, saveFails);
    if dto.sueldo.None? || dto.sueldo.value <= 0 || dto.personaId.None? || dto.personaId.value <= 0 || IsNullOrWhiteSpace(dto.cargo) {
      return BadRequest;
    }
    if dto.personaId.value !in VisiblePersonas(db.personas) {
      return BadRequest;
    }
    var contrato := Contrato(dto.sueldo, dto.fechaInicio, dto.fechaFinal, dto.cargo, false, None, dto.personaId);
    if saveFails {
      return BadRequest;
    }
    var id := db.nextId;
    db.contratos := db.contratos[id := contrato];
    db.nextId := id + 1;
    return Created(id);
  }

  /** `PutContrato` on tables `t`. The lookup goes through the query filter;
      the person is checked only when the request moves the contract to
      another one. */
  function PutContratoSpec(t: Tables, id: int, dto: CreateContratoDto, saveFails: bool): Outcome {
    if id <= 0 || !ValidContratoDto(dto) then
      Outcome(BadRequest, t)
    else if id !in VisibleContratos(t.contratos) then
      Outcome(NotFound, t)
    else if t.contratos[id].personaId != dto.personaId && !PersonaActiva(t, dto.personaId.value) then
      Outcome(BadRequest, t)
    else if saveFails then
      Outcome(BadRequest, t)
    else
      var c := t.contratos[id].(sueldo := dto.sueldo, fechaInicio := dto.fechaInicio, fechaFinal := dto.fechaFinal,
        cargo := dto.cargo, personaId := dto.personaId);
      Outcome(NoContent, t.(contratos := t.contratos[id := c]))
  }

  /** What `PutContrato` does:
      - the answer is not found exactly when the request is well formed but
        the contract is hidden or missing, and a bad request otherwise;
      - an accepted update writes the five request fields and keeps the flag
        and the deletion date;
      - it is accepted exactly when the request is valid, the contract is
        visible, the person is visible or unchanged, and the save works;
      - keeping the same person does not check that person again;
      - every other row is kept, and a refused request changes nothing. */
  lemma PutContratoEffect(t: Tables, id: int, dto: CreateContratoDto, saveFails: bool)
    ensures var r := PutContratoSpec(t, id, dto, saveFails);
      && (r.status == NoContent <==>
            && id > 0 && ValidContratoDto(dto) && id in VisibleContratos(t.contratos)
            && (t.contratos[id].personaId == dto.personaId || PersonaActiva(t, dto.personaId.value))
            && !saveFails)
      && (r.status == NotFound <==> id > 0 && ValidContratoDto(dto) && id !in VisibleContratos(t.contratos))
      && (r.status == NoContent || r.status == NotFound || r.status == BadRequest)
      && (r.status != NoContent ==> r.tables == t)
      && (r.status == NoContent ==>
            var c := r.tables.contratos[id];
            && c.sueldo == dto.sueldo && c.fechaInicio == dto.fechaInicio && c.fechaFinal == dto.fechaFinal
            && c.cargo == dto.cargo && c.personaId == dto.personaId
            && !c.estaEliminado && c.fechaEliminacion == t.contratos[id].fechaEliminacion
            && r.tables.contratos.Keys == t.contratos.Keys
            && (forall k :: k in t.contratos && k != id ==> r.tables.contratos[k] == t.contratos[k])
            && r.tables == t.(contratos := r.tables.contratos))
  {
  }

  lemma PutContratoKeepsValid(t: Tables, id: int, dto: CreateContratoDto, saveFails: bool)
    requires ValidTables(t)
    ensures ValidTables(PutContratoSpec(t, id, dto, saveFails).tables)
  {
  }

  method PutContrato(db: EmpresaDbContext, id: int, dto: CreateContratoDto, saveFails: bool) returns (status: Status)
    requires db.Valid()
    modifies db
    ensures db.Valid()
    ensures Outcome(status, db.Contents()) == PutContratoSpec(old(db.Contents()), id, dto, saveFails)
  {
    PutContratoKeepsValid(db.Contents(), id, dto, saveFails);
    if id <= 0 {
      return BadRequest;
    }
    if dto.sueldo.None? || dto.sueldo.value <= 0 || dto.personaId.None? || dto.personaId.value <= 0 || IsNullOrWhiteSpace(dto.cargo) {
      return BadRequest;
    }
    if id !in VisibleContratos(db.contratos) {
      return NotFound;
    }
    var contrato := db.contratos[id];
    if contrato.personaId != dto.personaId {
      if dto.personaId.value !in VisiblePersonas(db.personas) {
        return BadRequest;
      }
    }
    contrato := contrato.(sueldo := dto.sueldo, fechaInicio := dto.fechaInicio, fechaFinal := dto.fechaFinal);
    contrato := contrato.(cargo := dto.cargo, personaId := dto.personaId);
    if saveFails {
      return BadRequest;
    }
    db.contratos := db.contratos[id := contrato];
    return NoContent;
  }

  /** `DeleteContrato` on tables `t`: the removal is intercepted into a flag
      update (the deletion date is not set); a failing save is answered with
      BadRequest. */
  function DeleteContratoSpec(t: Tables, id: int, saveFails: bool): Outcome {
    if id <= 0 then
      Outcome(BadRequest, t)
    else if id !in VisibleContratos(t.contratos) then
      Outcome(NotFound, t)
    else if saveFails then
      Outcome(BadRequest, t)
    else
      var c := t.contratos[id];
      var e := InterceptEntry(EntityEntry(ContratoEntity, Deleted, c.estaEliminado, c.fechaEliminacion));
      Outcome(NoContent, t.(contratos := ApplyRemoval(t.contratos, id, e, c.(estaEliminado := e.estaEliminado, fechaEliminacion := e.fechaEliminacion))))
  }

  /** What `DeleteContrato` does: the row stays, flagged, with every other
      field as it was, and leaves the visible contracts; a refused delete
      changes nothing. */
  lemma DeleteContratoEffect(t: Tables, id: int, saveFails: bool)
    ensures var r := DeleteContratoSpec(t, id, saveFails);
      && (r.status == NoContent <==> id > 0 && id in VisibleContratos(t.contratos) && !saveFails)
      && (r.status != NoContent ==> r.tables == t)
      && (r.status == NoContent ==>
            && r.tables.contratos == t.contratos[id := t.contratos[id].(estaEliminado := true)]
            && id in r.tables.contratos && id !in VisibleContratos(r.tables.contratos)
            && r.tables == t.(contratos := r.tables.contratos))
  {
  }

  /** Every contract a create writes is well formed, so a create keeps
      "every contract is well formed". */
  lemma PostContratoKeepsWellFormed(t: Tables, dto: CreateContratoDto, saveFails: bool)
    requires AllWellFormed(t.contratos)
    ensures AllWellFormed(PostContratoSpec(t, dto, saveFails).tables.contratos)
  {
    var r := PostContratoSpec(t, dto, saveFails);
    if r.status.Created? {
      assert WellFormedContrato(r.tables.contratos[t.nextId]);
    }
  }

  /** An update writes only well-formed contracts. */
  lemma PutContratoKeepsWellFormed(t: Tables, id: int, dto: CreateContratoDto, saveFails: bool)
    requires AllWellFormed(t.contratos)
    ensures AllWellFormed(PutContratoSpec(t, id, dto, saveFails).tables.contratos)
  {
    var r := PutContratoSpec(t, id, dto, saveFails);
    if r.status == NoContent {
      assert WellFormedContrato(r.tables.contratos[id]);
    }
  }

  /** A soft delete changes only the flag, so it keeps every contract well
      formed. */
  lemma DeleteContratoKeepsWellFormed(t: Tables, id: int, saveFails: bool)
    requires AllWellFormed(t.contratos)
    ensures AllWellFormed(DeleteContratoSpec(t, id, saveFails).tables.contratos)
  {
    var r := DeleteContratoSpec(t, id, saveFails);
    if r.status == NoContent {
      assert WellFormedContrato(t.contratos[id]);
      assert WellFormedContrato(r.tables.contratos[id]);
    }
  }

  method DeleteContrato(db: EmpresaDbContext, id: int, saveFails: bool) returns (status: Status)
    requires db.Valid()
    modifies db
    ensures db.Valid()
    ensures Outcome(status, db.Contents()) == DeleteContratoSpec(old(db.Contents()), id, saveFails)
  {
    if id <= 0 {
      return BadRequest;
    }
    if id !in VisibleContratos(db.contratos) {
      return NotFound;
    }
    var contrato := db.contratos[id];
    var entry := SaveRemoval(ContratoEntity, contrato.estaEliminado, contrato.fechaEliminacion);
    if saveFails {
      return BadRequest;
    }
    contrato := contrato.(estaEliminado := entry.estaEliminado, fechaEliminacion := entry.fechaEliminacion);
    db.contratos := ApplyRemoval(db.contratos, id, entry, contrato);
    return NoContent;
  }
}
