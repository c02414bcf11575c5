/** Roles. Role names are unique ignoring case: a create or a rename to a
    name another role already has is a Conflict. A delete is physical, and
    the database refuses it, answered with Conflict, while any user row
    still names the role. */
module RolesController {
  import opened Common
  import opened Models
  import opened EmpresaDb

  /** Some role other than `self` has `nombre`, ignoring case. */
  predicate NameTaken(roles: map<int, Role>, self: int, nombre: string) {
    exists k :: k in roles && k != self && SameNameIgnoringCase(roles[k].nombre, nombre)
  }

  /** No two roles have the same name ignoring case. */
  predicate NamesUnique(roles: map<int, Role>) {
    forall a, b :: a in roles && b in roles && a != b ==> !SameNameIgnoringCase(roles[a].nombre, roles[b].nombre)
  }

  /** Some user row, flagged or not, names role `id`: the foreign key the
      database enforces on delete. */
  predicate RoleInUse(usuarios: map<int, Usuario>, id: int) {
    exists k :: k in usuarios && usuarios[k].rolId == Some(id)
  }

  /** Every user's role exists. */
  predicate RoleRefsHold(t: Tables) {
    forall k :: k in t.usuarios && t.usuarios[k].rolId.Some? ==> t.usuarios[k].rolId.value in t.roles
  }

  /** `PostRol` on tables `t`; no role id is excluded from the name check,
      since the new role has none yet. */
  function PostRolSpec(t: Tables, dto: CreateRolDto, saveFails: bool): Outcome {
    if IsNullOrWhiteSpace(dto.nombre) then
      Outcome(BadRequest, t)
    else if NameTaken(t.roles, t.nextId, dto.nombre.value) then
      Outcome(Conflict, t)
    else if saveFails then
      Outcome(InternalError(StorageException), t)
    else
      Outcome(Created(t.nextId), t.(roles := t.roles[t.nextId := Role(dto.nombre.value)], nextId := t.nextId + 1))
  }

  /** What `PostRol` does: it refuses a blank name, answers Conflict for a
      name some role has ignoring case, and otherwise stores the name as
      sent under a fresh id; a refused request changes nothing. */
  lemma PostRolEffect(t: Tables, dto: CreateRolDto, saveFails: bool)
    requires ValidTables(t)
    ensures var r := PostRolSpec(t, dto, saveFails);
      && (IsNullOrWhiteSpace(dto.nombre) ==> r.status == BadRequest)
      && (!IsNullOrWhiteSpace(dto.nombre) && (exists k :: k in t.roles && SameNameIgnoringCase(t.roles[k].nombre, dto.nombre.value)) ==>
            r.status == Conflict)
      && (r.status.Created? <==>
            !IsNullOrWhiteSpace(dto.nombre) && !(exists k :: k in t.roles && SameNameIgnoringCase(t.roles[k].nombre, dto.nombre.value)) && !saveFails)
      && (!r.status.Created? ==> r.tables == t)
      && (r.status.Created? ==>
            && r.status == Created(t.nextId) && t.nextId !in t.roles
            && r.tables == t.(roles := t.roles[t.nextId := Role(dto.nombre.value)], nextId := t.nextId + 1))
  {
    if !IsNullOrWhiteSpace(dto.nombre) && (exists k :: k in t.roles && SameNameIgnoringCase(t.roles[k].nombre, dto.nombre.value)) {
      var k :| k in t.roles && SameNameIgnoringCase(t.roles[k].nombre, dto.nombre.value);
      assert k != t.nextId;
      assert NameTaken(t.roles, t.nextId, dto.nombre.value);
    }
  }

  /** Writing a name no other role has keeps the names unique. */
  lemma {:induction false} WriteKeepsNamesUnique(roles: map<int, Role>, id: int, nombre: string)
    requires NamesUnique(roles)
    requires !NameTaken(roles, id, nombre)
    ensures NamesUnique(roles[id := Role(nombre)])
  {
    var rs := roles[id := Role(nombre)];
    forall a, b | a in rs && b in rs && a != b ensures !SameNameIgnoringCase(rs[a].nombre, rs[b].nombre) {
      if a == id {
        assert !SameNameIgnoringCase(roles[b].nombre, nombre);
      } else if b == id {
        assert !SameNameIgnoringCase(roles[a].nombre, nombre);
      } else {
        assert rs[a] == roles[a] && rs[b] == roles[b];
      }
    }
  }

  lemma PostRolKeepsNamesUnique(t: Tables, dto: CreateRolDto, saveFails: bool)
    requires NamesUnique(t.roles)
    ensures NamesUnique(PostRolSpec(t, dto, saveFails).tables.roles)
  {
    if PostRolSpec(t, dto, saveFails).status.Created? {
      WriteKeepsNamesUnique(t.roles, t.nextId, dto.nombre.value);
    }
  }

  lemma PostRolKeepsValid(t: Tables, dto: CreateRolDto, saveFails: bool)
    requires ValidTables(t)
    ensures ValidTables(PostRolSpec(t, dto, saveFails).tables)
    ensures RoleRefsHold(t) ==> RoleRefsHold(PostRolSpec(t, dto, saveFails).tables)
  {
  }

  method PostRol(db: EmpresaDbContext, dto: CreateRolDto, saveFails: bool) returns (status: Status)
    requires db.Valid()
    modifies db
    ensures db.Valid()
    ensures Outcome(status, db.Contents()) == PostRolSpec(old(db.Contents()), dto, saveFails)
  {
    PostRolKeepsValid(db.Contents(), dto, saveFails);
    if IsNullOrWhiteSpace(dto.nombre) {
      return BadRequest;
    }
    var id := db.nextId;
    if NameTaken(db.roles, id, dto.nombre.value) {
      return Conflict;
    }
    if saveFails {
      return InternalError(StorageException);
    }
    db.roles := db.roles[id := Role(dto.nombre.value)];
    db.nextId := id + 1;
    return Created(id);
  }

  /** `PutRol` on tables `t`. */
  function PutRolSpec(t: Tables, id: int, dto: CreateRolDto, saveFails: bool): Outcome {
    if id <= 0 || IsNullOrWhiteSpace(dto.nombre) then
      Outcome(BadRequest, t)
    else if id !in t.roles then
      Outcome(NotFound, t)
    else if NameTaken(t.roles, id, dto.nombre.value) then
      Outcome(Conflict, t)
    else if saveFails then
      Outcome(InternalError(StorageException), t)
    else
      Outcome(NoContent, t.(roles := t.roles[id := Role(dto.nombre.value)]))
  }

  /** What `PutRol` does:
      - a non-positive id or a blank name is a bad request, an unknown id
        is not found, and a failing save is a server error;
      - an accepted rename writes the name as sent;
      - the role's own name does not count as a clash, so changing only
        the letter case of a name is accepted;
      - a rename to another role's name is a Conflict;
      - a refused request changes nothing. */
  lemma PutRolEffect(t: Tables, id: int, dto: CreateRolDto, saveFails: bool)
    ensures var r := PutRolSpec(t, id, dto, saveFails);
      && (r.status == NoContent <==>
            id > 0 && !IsNullOrWhiteSpace(dto.nombre) && id in t.roles && !NameTaken(t.roles, id, dto.nombre.value) && !saveFails)
      && (id <= 0 || IsNullOrWhiteSpace(dto.nombre) ==> r.status == BadRequest)
      && (id > 0 && !IsNullOrWhiteSpace(dto.nombre) && id !in t.roles ==> r.status == NotFound)
      && (id > 0 && !IsNullOrWhiteSpace(dto.nombre) && id in t.roles && NameTaken(t.roles, id, dto.nombre.value) ==> r.status == Conflict)
      && (id > 0 && !IsNullOrWhiteSpace(dto.nombre) && id in t.roles && !NameTaken(t.roles, id, dto.nombre.value) && saveFails ==>
            r.status == InternalError(StorageException))
      && (r.status != NoContent ==> r.tables == t)
      && (r.status == NoContent ==> r.tables == t.(roles := t.roles[id := Role(dto.nombre.value)]))
  {
  }

  /** Renaming a role to its own name in other letter case is never a
      Conflict while the names are unique. */
  lemma PutRolSameNameNoConflict(t: Tables, id: int, dto: CreateRolDto, saveFails: bool)
    requires NamesUnique(t.roles)
    requires id > 0 && id in t.roles && dto.nombre.Some? && !IsNullOrWhiteSpace(dto.nombre)
    requires SameNameIgnoringCase(t.roles[id].nombre, dto.nombre.value)
    ensures PutRolSpec(t, id, dto, saveFails).status != Conflict
  {
  }

  lemma PutRolKeepsNamesUnique(t: Tables, id: int, dto: CreateRolDto, saveFails: bool)
    requires NamesUnique(t.roles)
    ensures NamesUnique(PutRolSpec(t, id, dto, saveFails).tables.roles)
  {
    if PutRolSpec(t, id, dto, saveFails).status == NoContent {
      WriteKeepsNamesUnique(t.roles, id, dto.nombre.value);
    }
  }

  lemma PutRolKeepsValid(t: Tables, id: int, dto: CreateRolDto, saveFails: bool)
    requires ValidTables(t)
    ensures ValidTables(PutRolSpec(t, id, dto, saveFails).tables)
    ensures RoleRefsHold(t) ==> RoleRefsHold(PutRolSpec(t, id, dto, saveFails).tables)
  {
  }

  method PutRol(db: EmpresaDbContext, id: int, dto: CreateRolDto, saveFails: bool) returns (status: Status)
    requires db.Valid()
    modifies db
    ensures db.Valid()
    ensures Outcome(status, db.Contents()) == PutRolSpec(old(db.Contents()), id, dto, saveFails)
  {
    PutRolKeepsValid(db.Contents(), id, dto, saveFails);
    if id <= 0 {
      return BadRequest;
    }
    if IsNullOrWhiteSpace(dto.nombre) {
      return BadRequest;
    }
    if id !in db.roles {
      return NotFound;
    }
    if NameTaken(db.roles, id, dto.nombre.value) {
      return Conflict;
    }
    var rol := db.roles[id].(nombre := dto.nombre.value);
    if saveFails {
      return InternalError(StorageException);
    }
    db.roles := db.roles[id := rol];
    return NoContent;
  }

  /** `DeleteRol` on tables `t`: Role is not soft-deletable, so the removal
      reaches the database, which refuses it while a user row names the
      role. */
  function DeleteRolSpec(t: Tables, id: int, saveFails: bool): Outcome {
    if id <= 0 then
      Outcome(BadRequest, t)
    else if id !in t.roles then
      Outcome(NotFound, t)
    else if RoleInUse(t.usuarios, id) then
      Outcome(Conflict, t)
    else if saveFails then
      Outcome(InternalError(StorageException), t)
    else
      var e := InterceptEntry(EntityEntry(RoleEntity, Deleted, false, None));
      Outcome(NoContent, t.(roles := ApplyRemoval(t.roles, id, e, t.roles[id])))
  }

  /** What `DeleteRol` does:
      - a role some user row names, even a soft-deleted user, is a Conflict;
      - an accepted delete removes the row physically and keeps every other
        table;
      - a refused request changes nothing. */
  lemma DeleteRolEffect(t: Tables, id: int, saveFails: bool)
    ensures var r := DeleteRolSpec(t, id, saveFails);
      && (r.status == NoContent <==> id > 0 && id in t.roles && !RoleInUse(t.usuarios, id) && !saveFails)
      && (id > 0 && id in t.roles && RoleInUse(t.usuarios, id) ==> r.status == Conflict)
      && (r.status != NoContent ==> r.tables == t)
      && (r.status == NoContent ==> r.tables == t.(roles := t.roles - {id}))
  {
  }

  /** A delete never leaves a user naming a role that is gone, and keeps
      the names unique. */
  lemma DeleteRolKeepsRoleRefs(t: Tables, id: int, saveFails: bool)
    requires RoleRefsHold(t) && NamesUnique(t.roles)
    ensures RoleRefsHold(DeleteRolSpec(t, id, saveFails).tables)
    ensures NamesUnique(DeleteRolSpec(t, id, saveFails).tables.roles)
  {
    var r := DeleteRolSpec(t, id, saveFails);
    if r.status == NoContent {
      forall k | k in t.usuarios && t.usuarios[k].rolId.Some? ensures t.usuarios[k].rolId.value in r.tables.roles {
        assert t.usuarios[k].rolId != Some(id);
      }
    }
  }

  lemma DeleteRolKeepsValid(t: Tables, id: int, saveFails: bool)
    requires ValidTables(t)
    ensures ValidTables(DeleteRolSpec(t, id, saveFails).tables)
  {
  }

  method DeleteRol(db: EmpresaDbContext, id: int, saveFails: bool) returns (status: Status)
    requires db.Valid()
    modifies db
    ensures db.Valid()
    ensures Outcome(status, db.Contents()) == DeleteRolSpec(old(db.Contents()), id, saveFails)
  {
    DeleteRolKeepsValid(db.Contents(), id, saveFails);
    if id <= 0 {
      return BadRequest;
    }
    if id !in db.roles {
      return NotFound;
    }
    var rol := db.roles[id];
    var entry := SaveRemoval(RoleEntity, false, None);
    if RoleInUse(db.usuarios, id) {
      return Conflict;
    }
    if saveFails {
      return InternalError(StorageException);
    }
    db.roles := ApplyRemoval(db.roles, id, entry, rol);
    return NoContent;
  }
}
