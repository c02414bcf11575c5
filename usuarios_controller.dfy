/** Users. A create needs a non-blank email and password, a visible person
    and, when a positive one is named, an existing role; the password is
    stored hashed. An update maps the request onto a visible user and
    replaces the hash only when a new password is sent. A delete flags the
    user's person, not the user, which is enough to stop the user from
    making sales. */
module UsuariosController {
  import opened Common
  import opened Models
  import opened EmpresaDb
  import VentasController

  /** The placeholder a client sends to keep the stored password. */
  const PasswordPlaceholder: string := "PASSWORD_HASH_AQUI"

  /** The unique index on Correo, seen by the row `self` being written. */
  predicate CorreoClash(usuarios: map<int, Usuario>, self: int, correo: string) {
    exists k :: k in usuarios && k != self && usuarios[k].correo == correo
  }

  /** The foreign keys of a user row: its person row exists (flagged or
      not), and so does its role when it names one. */
  predicate ForeignKeysHold(t: Tables, u: Usuario) {
    u.personaId in t.personas && (u.rolId.None? || u.rolId.value in t.roles)
  }

  /** `PostUsuario` on tables `t`; `hashed` is the BCrypt hash of the
      password, drawn with a fresh salt. Every save failure is a
      DbUpdateException, answered with BadRequest. */
  function PostUsuarioSpec(t: Tables, dto: CreateUsuarioDto, hashed: string, saveFails: bool): Outcome {
    var u := Usuario(dto.correo, hashed, false, None, dto.personaId, dto.rolId);
    if IsNullOrWhiteSpace(Some(dto.correo)) || IsNullOrWhiteSpace(Some(dto.contrasenia)) || dto.personaId <= 0 then
      Outcome(BadRequest, t)
    else if dto.personaId !in VisiblePersonas(t.personas) then
      Outcome(BadRequest, t)
    else if dto.rolId.Some? && dto.rolId.value > 0 && dto.rolId.value !in t.roles then
      Outcome(BadRequest, t)
    else if !ForeignKeysHold(t, u) || CorreoClash(t.usuarios, t.nextId, u.correo) || saveFails then
      Outcome(BadRequest, t)
    else
      Outcome(Created(t.nextId), t.(usuarios := t.usuarios[t.nextId := u], nextId := t.nextId + 1))
  }

  /** What `PostUsuario` does:
      - it creates a user exactly when email and password are not blank,
        the person is visible, the role (if any) exists, no user holds the
        email and the save works; a role id of zero or less is not looked
        up but still breaks the foreign key;
      - the new row stores the hash, never the password, and is visible;
      - a refused request changes nothing. */
  lemma PostUsuarioEffect(t: Tables, dto: CreateUsuarioDto, hashed: string, saveFails: bool)
    requires ValidTables(t)
    ensures var r := PostUsuarioSpec(t, dto, hashed, saveFails);
      && (r.status.Created? <==>
            && !IsNullOrWhiteSpace(Some(dto.correo)) && !IsNullOrWhiteSpace(Some(dto.contrasenia))
            && dto.personaId in VisiblePersonas(t.personas)
            && (dto.rolId.None? || dto.rolId.value in t.roles)
            && !(exists k :: k in t.usuarios && t.usuarios[k].correo == dto.correo)
            && !saveFails)
      && (!r.status.Created? ==> r.status == BadRequest && r.tables == t)
      && (r.status.Created? ==>
            && r.status == Created(t.nextId) && t.nextId !in t.usuarios
            && r.tables.usuarios == t.usuarios[t.nextId := Usuario(dto.correo, hashed, false, None, dto.personaId, dto.rolId)]
            && t.nextId in VisibleUsuarios(r.tables.usuarios)
            && r.tables == t.(usuarios := r.tables.usuarios, nextId := t.nextId + 1))
  {
    var r := PostUsuarioSpec(t, dto, hashed, saveFails);
    if exists k :: k in t.usuarios && t.usuarios[k].correo == dto.correo {
      var k :| k in t.usuarios && t.usuarios[k].correo == dto.correo;
      assert k != t.nextId;
      assert CorreoClash(t.usuarios, t.nextId, dto.correo);
    }
    if dto.personaId in VisiblePersonas(t.personas) {
      assert dto.personaId in t.personas && dto.personaId >= 1;
    }
  }

  /** A user written with an email that clashes with no other row keeps the
      unique index. */
  lemma WriteKeepsUniqueCorreos(usuarios: map<int, Usuario>, id: int, u: Usuario)
    requires UniqueCorreos(usuarios)
    requires !CorreoClash(usuarios, id, u.correo)
    ensures UniqueCorreos(usuarios[id := u])
  {
  }

  lemma PostUsuarioKeepsValid(t: Tables, dto: CreateUsuarioDto, hashed: string, saveFails: bool)
    requires ValidTables(t)
    ensures ValidTables(PostUsuarioSpec(t, dto, hashed, saveFails).tables)
  {
    var r := PostUsuarioSpec(t, dto, hashed, saveFails);
    if r.status.Created? {
      WriteKeepsUniqueCorreos(t.usuarios, t.nextId, r.tables.usuarios[t.nextId]);
    }
  }

  method PostUsuario(db: EmpresaDbContext, dto: CreateUsuarioDto, hashed: string, saveFails: bool) returns (status: Status)
    requires db.Valid()
    modifies db
    ensures db.Valid()
    ensures Outcome(status, db.Contents()) == PostUsuarioSpec(old(db.Contents()), dto, hashed, saveFails)
  {
    PostUsuarioKeepsValid(db.Contents(), dto, hashed, saveFails);
    if IsNullOrWhiteSpace(Some(dto.correo)) || IsNullOrWhiteSpace(Some(dto.contrasenia)) || dto.personaId <= 0 {
      return BadRequest;
    }
    if dto.personaId !in VisiblePersonas(db.personas) {
      return BadRequest;
    }
    if dto.rolId.Some? && dto.rolId.value > 0 {
      if dto.rolId.value !in db.roles {
        return BadRequest;
      }
    }
    var usuario := Usuario(dto.correo, "", false, None, dto.personaId, dto.rolId);
    usuario := usuario.(contrasenia := hashed);
    var id := db.nextId;
    if !ForeignKeysHold(db.Contents(), usuario) || CorreoClash(db.usuarios, id, usuario.correo) || saveFails {
      return BadRequest;
    }
    db.usuarios := db.usuarios[id := usuario];
    db.nextId := id + 1;
    return Created(id);
  }

  /** Whether an update's password replaces the stored hash. */
  predicate ReplacesPassword(contrasenia: string) {
    !IsNullOrWhiteSpace(Some(contrasenia)) && contrasenia != PasswordPlaceholder
  }

  /** `PutUsuario` on tables `t`. The lookup goes through the query filter;
      the request is not validated, so only the database's own checks (the
      unique email and the foreign keys) can refuse it. */
  function PutUsuarioSpec(t: Tables, id: int, dto: CreateUsuarioDto, hashed: string, saveFails: bool): Outcome {
    if id !in VisibleUsuarios(t.usuarios) then
      Outcome(NotFound, t)
    else
      var mapped := t.usuarios[id].(correo := dto.correo, personaId := dto.personaId, rolId := dto.rolId);
      var u := if ReplacesPassword(dto.contrasenia) then mapped.(contrasenia := hashed) else mapped;
      if !ForeignKeysHold(t, u) || CorreoClash(t.usuarios, id, u.correo) || saveFails then
        Outcome(BadRequest, t)
      else
        Outcome(NoContent, t.(usuarios := t.usuarios[id := u]))
  }

  /** What `PutUsuario` does:
      - an accepted update writes the email, the person and the role;
      - it stores the new hash when a real password is sent and keeps the
        old hash for a blank password or the placeholder;
      - it is accepted exactly when the user is visible, the new person row
        and role row exist, no other user holds the email and the save
        works; a hidden user is not found and any other refusal is a bad
        request;
      - every other row is kept, and a refused request changes nothing. */
  lemma PutUsuarioEffect(t: Tables, id: int, dto: CreateUsuarioDto, hashed: string, saveFails: bool)
    ensures var r := PutUsuarioSpec(t, id, dto, hashed, saveFails);
      && (id !in VisibleUsuarios(t.usuarios) ==> r == Outcome(NotFound, t))
      && (r.status == NoContent <==>
            && id in VisibleUsuarios(t.usuarios)
            && dto.personaId in t.personas && (dto.rolId.None? || dto.rolId.value in t.roles)
            && !CorreoClash(t.usuarios, id, dto.correo) && !saveFails)
      && (r.status == NoContent || r.status == NotFound || r.status == BadRequest)
      && (r.status != NoContent ==> r.tables == t)
      && (r.status == NoContent ==>
            var u := r.tables.usuarios[id];
            && u.correo == dto.correo && u.personaId == dto.personaId && u.rolId == dto.rolId
            && (ReplacesPassword(dto.contrasenia) ==> u.contrasenia == hashed)
            && (!ReplacesPassword(dto.contrasenia) ==> u.contrasenia == t.usuarios[id].contrasenia)
            && !u.estaEliminado && u.fechaEliminacion == t.usuarios[id].fechaEliminacion
            && ForeignKeysHold(t, u) && !CorreoClash(t.usuarios, id, dto.correo) && !saveFails
            && r.tables.usuarios.Keys == t.usuarios.Keys
            && (forall k :: k in t.usuarios && k != id ==> r.tables.usuarios[k] == t.usuarios[k])
            && r.tables == t.(usuarios := r.tables.usuarios))
  {
  }

  lemma PutUsuarioKeepsValid(t: Tables, id: int, dto: CreateUsuarioDto, hashed: string, saveFails: bool)
    requires ValidTables(t)
    ensures ValidTables(PutUsuarioSpec(t, id, dto, hashed, saveFails).tables)
  {
    var r := PutUsuarioSpec(t, id, dto, hashed, saveFails);
    if r.status == NoContent {
      WriteKeepsUniqueCorreos(t.usuarios, id, r.tables.usuarios[id]);
    }
  }

  method PutUsuario(db: EmpresaDbContext, id: int, dto: CreateUsuarioDto, hashed: string, saveFails: bool) returns (status: Status)
    requires db.Valid()
    modifies db
    ensures db.Valid()
    ensures Outcome(status, db.Contents()) == PutUsuarioSpec(old(db.Contents()), id, dto, hashed, saveFails)
  {
    PutUsuarioKeepsValid(db.Contents(), id, dto, hashed, saveFails);
    if id !in VisibleUsuarios(db.usuarios) {
      return NotFound;
    }
    var usuario := db.usuarios[id].(correo := dto.correo, personaId := dto.personaId, rolId := dto.rolId);
    if !IsNullOrWhiteSpace(Some(dto.contrasenia)) && dto.contrasenia != PasswordPlaceholder {
      usuario := usuario.(contrasenia := hashed);
    }
    if !ForeignKeysHold(db.Contents(), usuario) || CorreoClash(db.usuarios, id, usuario.correo) || saveFails {
      return BadRequest;
    }
    db.usuarios := db.usuarios[id := usuario];
    return NoContent;
  }

  /** `DeleteUsuario` on tables `t`. The query includes the user's person
      through a required navigation, so Entity Framework joins it with an
      inner join that applies the person's query filter too: a user whose
      person is missing or flagged is not found. The branch for an already
      flagged person is therefore never reached. Only the person's flag is
      set: no deletion date, and the user row itself is left as it was. */
  function DeleteUsuarioSpec(t: Tables, id: int, saveFails: bool): Outcome {
    if id <= 0 then
      Outcome(BadRequest, t)
    else if !VentasController.UsuarioExists(t.usuarios, t.personas, id) then
      Outcome(NotFound, t)
    else if saveFails then
      Outcome(BadRequest, t)
    else
      var pid := t.usuarios[id].personaId;
      Outcome(NoContent, t.(personas := t.personas[pid := t.personas[pid].(estaEliminado := true)]))
  }

  /** What `DeleteUsuario` does:
      - a non-positive id is a bad request; an id whose user is hidden, or
        whose person is missing or flagged, is not found;
      - an accepted delete flags the user's person and changes nothing else:
        the user row stays as it was, still visible;
      - afterwards the user no longer passes the sale endpoint's user check;
      - a refused delete changes nothing. */
  lemma DeleteUsuarioEffect(t: Tables, id: int, saveFails: bool)
    ensures var r := DeleteUsuarioSpec(t, id, saveFails);
      && (r.status != NoContent ==> r.tables == t)
      && (id <= 0 ==> r.status == BadRequest)
      && (id > 0 && !VentasController.UsuarioExists(t.usuarios, t.personas, id) ==> r.status == NotFound)
      && (r.status == NoContent <==>
            id > 0 && id in VisibleUsuarios(t.usuarios) && t.usuarios[id].personaId in t.personas
            && !t.personas[t.usuarios[id].personaId].estaEliminado && !saveFails)
      && (r.status == NoContent ==>
            var pid := t.usuarios[id].personaId;
            && r.tables.personas == t.personas[pid := t.personas[pid].(estaEliminado := true)]
            && r.tables.usuarios == t.usuarios && id in VisibleUsuarios(r.tables.usuarios)
            && !VentasController.UsuarioExists(r.tables.usuarios, r.tables.personas, id)
            && r.tables == t.(personas := r.tables.personas))
  {
  }

  /** Deleting a user a second time finds no user and changes nothing. */
  lemma DeleteUsuarioIdempotent(t: Tables, id: int, saveFails: bool, saveFailsAgain: bool)
    requires DeleteUsuarioSpec(t, id, saveFails).status == NoContent
    ensures var once := DeleteUsuarioSpec(t, id, saveFails).tables;
      DeleteUsuarioSpec(once, id, saveFailsAgain) == Outcome(NotFound, once)
  {
  }

  lemma DeleteUsuarioKeepsValid(t: Tables, id: int, saveFails: bool)
    requires ValidTables(t)
    ensures ValidTables(DeleteUsuarioSpec(t, id, saveFails).tables)
  {
    var r := DeleteUsuarioSpec(t, id, saveFails);
    if r.status == NoContent && r.tables != t {
      var pid := t.usuarios[id].personaId;
      var ps := r.tables.personas;
      forall a, b | a in ps && b in ps && a != b && ps[a].cedula.Some? ensures ps[a].cedula != ps[b].cedula {
        assert ps[a].cedula == t.personas[a].cedula && ps[b].cedula == t.personas[b].cedula;
      }
    }
  }

  method DeleteUsuario(db: EmpresaDbContext, id: int, saveFails: bool) returns (status: Status)
    requires db.Valid()
    modifies db
    ensures db.Valid()
    ensures Outcome(status, db.Contents()) == DeleteUsuarioSpec(old(db.Contents()), id, saveFails)
  {
    DeleteUsuarioKeepsValid(db.Contents(), id, saveFails);
    if id <= 0 {
      return BadRequest;
    }
    if !VentasController.UsuarioExists(db.usuarios, db.personas, id) {
      return NotFound;
    }
    var pid := db.usuarios[id].personaId;
    var persona := db.personas[pid].(estaEliminado := true);
    if saveFails {
      return BadRequest;
    }
    db.personas := db.personas[pid := persona];
    return NoContent;
  }
}
