/** Login and refresh-token rotation. Refresh tokens live seven days. A
    rotation accepts only a token that is neither revoked nor expired,
    revokes it, drops the user's expired tokens and adds a fresh one for the
    same user, all in one transaction; a login does the same minus the
    revocation. The signed access token (JWT) is represented by the id of the
    user it is issued for; token values and the password-hash check are
    supplied by the caller. Login as written never checks the password; the
    model states that and then models login with the check. */
module AuthService {
  import opened Common
  import opened Models
  import opened EmpresaDb

  /** Seven days, in seconds. */
  const SevenDays: int := 604800

  /** What a login or a refresh hands back: no pair, the pair issued for a
      user, or the exception that left the service. */
  datatype AuthResult = NoPair | Pair(usuarioId: int, refresh: RefreshToken) | Failed(cause: Exception)

  datatype AuthOutcome = AuthOutcome(result: AuthResult, tables: Tables)

  // ---------------------------------------------------------------------------
  // Tokens
  // ---------------------------------------------------------------------------

  /** `GenerateRefreshToken`: a new, unrevoked token with the random value
      `value`, created `now`; its user is set when it is saved. */
  function GenerateRefreshToken(value: string, now: int): (r: RefreshToken)
    ensures r.token == value && !r.isRevoked
  {
    RefreshToken(value, now + SevenDays, now, false, 0)
  }

  /** A token is expired once its expiry lies before `now`. */
  predicate Expired(tok: RefreshToken, now: int) {
    tok.expires < now
  }

  /** A new token is accepted for exactly seven days after its creation. */
  lemma FreshTokenLifetime(value: string, now: int, at: int)
    requires at >= now
    ensures var tok := GenerateRefreshToken(value, now);
      tok.expires - tok.created == SevenDays && (!Expired(tok, at) <==> at <= now + SevenDays)
  {
  }

  /** What the lookup `t.Token == value && t.IsRevoked == false` matches. */
  predicate IsActive(tok: RefreshToken, value: string) {
    tok.token == value && !tok.isRevoked
  }

  /** `FirstOrDefaultAsync(t => t.Token == value && t.IsRevoked == false)`:
      the position of the first matching token. */
  function FindActive(tokens: seq<RefreshToken>, value: string): (r: Option<nat>)
    ensures r.Some? ==> r.value < |tokens| && IsActive(tokens[r.value], value)
    ensures r.Some? ==> forall j :: 0 <= j < r.value ==> !IsActive(tokens[j], value)
    ensures r.None? <==> forall j :: 0 <= j < |tokens| ==> !IsActive(tokens[j], value)
  {
    if tokens == [] then
      None
    else if IsActive(tokens[0], value) then
      Some(0)
    else
      match FindActive(tokens[1..], value)
      case None => None
      case Some(i) => Some(i + 1)
  }

  /** A token the purge of user `userId` at `now` removes. */
  predicate Stale(tok: RefreshToken, userId: int, now: int) {
    tok.usuarioId == userId && Expired(tok, now)
  }

  /** `RemoveRange(Where(t => t.UsuariosIdUsuarios == userId && t.Expires < now))`:
      the table without that user's expired tokens, in the same order. */
  function Purge(tokens: seq<RefreshToken>, userId: int, now: int): (r: seq<RefreshToken>)
    ensures |r| <= |tokens|
    ensures forall x :: x in r ==> x in tokens && !Stale(x, userId, now)
    ensures forall x :: x in tokens && !Stale(x, userId, now) ==> x in r
  {
    if tokens == [] then
      []
    else
      (if Stale(tokens[0], userId, now) then [] else [tokens[0]]) + Purge(tokens[1..], userId, now)
  }

  /** The tokens of user `v`, in table order. */
  function OfUser(tokens: seq<RefreshToken>, v: int): seq<RefreshToken> {
    if tokens == [] then
      []
    else
      (if tokens[0].usuarioId == v then [tokens[0]] else []) + OfUser(tokens[1..], v)
  }

  lemma {:induction false} OfUserAppend(a: seq<RefreshToken>, b: seq<RefreshToken>, v: int)
    ensures OfUser(a + b, v) == OfUser(a, v) + OfUser(b, v)
  {
    if a == [] {
      assert a + b == b;
    } else {
      assert (a + b)[0] == a[0] && (a + b)[1..] == a[1..] + b;
      OfUserAppend(a[1..], b, v);
    }
  }

  /** Purging one user's tokens leaves every other user's tokens as they
      were, in the same order. */
  lemma {:induction false} PurgeKeepsOtherUsers(tokens: seq<RefreshToken>, u: int, v: int, now: int)
    requires u != v
    ensures OfUser(Purge(tokens, u, now), v) == OfUser(tokens, v)
  {
    if tokens != [] {
      var head := if Stale(tokens[0], u, now) then [] else [tokens[0]];
      OfUserAppend(head, Purge(tokens[1..], u, now), v);
      PurgeKeepsOtherUsers(tokens[1..], u, v, now);
      if head != [] {
        assert head[1..] == [];
      }
    }
  }

  /** Changing a token of one user does not change another user's tokens. */
  lemma {:induction false} UpdateKeepsOtherUsers(tokens: seq<RefreshToken>, i: nat, tok: RefreshToken, v: int)
    requires i < |tokens| && tokens[i].usuarioId != v && tok.usuarioId != v
    ensures OfUser(tokens[i := tok], v) == OfUser(tokens, v)
  {
    var updated := tokens[i := tok];
    if i == 0 {
      assert updated[1..] == tokens[1..];
    } else {
      assert updated[0] == tokens[0] && updated[1..] == tokens[1..][i - 1 := tok];
      UpdateKeepsOtherUsers(tokens[1..], i - 1, tok, v);
    }
  }

  /** `SaveRefreshTokenWithoutSave`: stages the purge of the user's expired
      tokens and the new token bound to the user; the caller saves. */
  method SaveRefreshTokenWithoutSave(db: EmpresaDbContext, userId: int, newRefreshToken: RefreshToken, now: int)
    modifies db
    ensures db.Contents() == old(db.Contents()).(refreshTokens :=
      Purge(old(db.refreshTokens), userId, now) + [newRefreshToken.(usuarioId := userId)])
  {
    var tokensViejos := Purge(db.refreshTokens, userId, now);
    db.refreshTokens := tokensViejos + [newRefreshToken.(usuarioId := userId)];
  }

  // ---------------------------------------------------------------------------
  // RefreshAccessTokenAsync
  // ---------------------------------------------------------------------------

  /** `RefreshAccessTokenAsync` on tables `t`, with `newValue` the random value
      of the new token. The lookup happens before the transaction begins; a
      missing user (or a soft-deleted one, which the query filter hides)
      throws, as does a failing save or commit, and both roll back. */
  function RefreshSpec(t: Tables, oldValue: string, newValue: string, now: int, saveFails: bool): AuthOutcome {
    match FindActive(t.refreshTokens, oldValue)
    case None => AuthOutcome(NoPair, t)
    case Some(i) =>
      if Expired(t.refreshTokens[i], now) then
        AuthOutcome(NoPair, t)
      else
        var u := t.refreshTokens[i].usuarioId;
        if u !in VisibleUsuarios(t.usuarios) then
          AuthOutcome(Failed(PlainException), t)
        else if saveFails then
          AuthOutcome(Failed(StorageException), t)
        else
          var revoked := t.refreshTokens[i := t.refreshTokens[i].(isRevoked := true)];
          var issued := GenerateRefreshToken(newValue, now).(usuarioId := u);
          AuthOutcome(Pair(u, issued), t.(refreshTokens := Purge(revoked, u, now) + [issued]))
  }

  /** A value that matches no unrevoked token, or whose first match is
      expired, gets no pair and changes nothing. A live first match whose
      owner is hidden or missing throws, and so does a failing save; any
      failure changes nothing. */
  lemma RefreshRejects(t: Tables, oldValue: string, newValue: string, now: int, saveFails: bool)
    ensures var r := RefreshSpec(t, oldValue, newValue, now, saveFails);
      && ((forall j :: 0 <= j < |t.refreshTokens| ==> !IsActive(t.refreshTokens[j], oldValue)) ==> r == AuthOutcome(NoPair, t))
      && (forall i ::
            (&& 0 <= i < |t.refreshTokens| && IsActive(t.refreshTokens[i], oldValue)
             && (forall j :: 0 <= j < i ==> !IsActive(t.refreshTokens[j], oldValue))) ==>
            && (Expired(t.refreshTokens[i], now) ==> r == AuthOutcome(NoPair, t))
            && (!Expired(t.refreshTokens[i], now) && t.refreshTokens[i].usuarioId !in VisibleUsuarios(t.usuarios) ==>
                  r == AuthOutcome(Failed(PlainException), t))
            && (!Expired(t.refreshTokens[i], now) && t.refreshTokens[i].usuarioId in VisibleUsuarios(t.usuarios) && saveFails ==>
                  r == AuthOutcome(Failed(StorageException), t)))
      && (!r.result.Pair? ==> r.tables == t)
  {
    var r := RefreshSpec(t, oldValue, newValue, now, saveFails);
    forall i | 0 <= i < |t.refreshTokens| && IsActive(t.refreshTokens[i], oldValue)
      && (forall j :: 0 <= j < i ==> !IsActive(t.refreshTokens[j], oldValue))
      ensures FindActive(t.refreshTokens, oldValue) == Some(i)
    {
      assert FindActive(t.refreshTokens, oldValue).Some?;
    }
  }

  /** A successful rotation:
      - the matched token was unrevoked and unexpired, and a visible user
        holds it;
      - the new pair is for that same user;
      - the table becomes the old one with the matched token revoked, that
        user's expired tokens dropped, and one new token at the end;
      - the new token is bound to that user, unrevoked, and expires seven
        days from now;
      - nothing but the token table changes. */
  lemma RefreshEffect(t: Tables, oldValue: string, newValue: string, now: int, saveFails: bool)
    ensures var r := RefreshSpec(t, oldValue, newValue, now, saveFails);
      r.result.Pair? ==>
        var i := FindActive(t.refreshTokens, oldValue).value;
        var u := t.refreshTokens[i].usuarioId;
        && IsActive(t.refreshTokens[i], oldValue) && !Expired(t.refreshTokens[i], now)
        && u in VisibleUsuarios(t.usuarios) && !saveFails
        && r.result.usuarioId == u
        && r.result.refresh == RefreshToken(newValue, now + SevenDays, now, false, u)
        && r.tables == t.(refreshTokens := Purge(t.refreshTokens[i := t.refreshTokens[i].(isRevoked := true)], u, now) + [r.result.refresh])
  {
  }

  /** A rotation adds exactly one token to its user's tokens and leaves every
      other user's tokens as they were. */
  lemma RefreshTouchesOnlyItsUser(t: Tables, oldValue: string, newValue: string, now: int, saveFails: bool, v: int)
    ensures var r := RefreshSpec(t, oldValue, newValue, now, saveFails);
      r.result.Pair? && v != r.result.usuarioId ==> OfUser(r.tables.refreshTokens, v) == OfUser(t.refreshTokens, v)
  {
    var r := RefreshSpec(t, oldValue, newValue, now, saveFails);
    if r.result.Pair? && v != r.result.usuarioId {
      var i := FindActive(t.refreshTokens, oldValue).value;
      var u := r.result.usuarioId;
      var revoked := t.refreshTokens[i := t.refreshTokens[i].(isRevoked := true)];
      UpdateKeepsOtherUsers(t.refreshTokens, i, t.refreshTokens[i].(isRevoked := true), v);
      PurgeKeepsOtherUsers(revoked, u, v, now);
      OfUserAppend(Purge(revoked, u, now), [r.result.refresh], v);
      assert OfUser([r.result.refresh], v) == [];
    }
  }

  /** Token values are unique in the table (they are 64 random bytes). */
  ghost predicate UniqueTokenValues(tokens: seq<RefreshToken>) {
    forall a, b :: 0 <= a < b < |tokens| ==> tokens[a].token != tokens[b].token
  }

  /** Replaying a token that was just rotated fails: it is revoked, and no
      other token carries its value. */
  lemma RefreshReplayFails(t: Tables, oldValue: string, newValue: string, now: int, saveFails: bool,
                           newValue2: string, now2: int, saveFails2: bool)
    requires UniqueTokenValues(t.refreshTokens) && newValue != oldValue
    requires RefreshSpec(t, oldValue, newValue, now, saveFails).result.Pair?
    ensures var after := RefreshSpec(t, oldValue, newValue, now, saveFails).tables;
      RefreshSpec(after, oldValue, newValue2, now2, saveFails2) == AuthOutcome(NoPair, after)
  {
    var r := RefreshSpec(t, oldValue, newValue, now, saveFails);
    var i := FindActive(t.refreshTokens, oldValue).value;
    var u := r.result.usuarioId;
    var revoked := t.refreshTokens[i := t.refreshTokens[i].(isRevoked := true)];
    forall x | x in revoked ensures !IsActive(x, oldValue) {
      var j :| 0 <= j < |revoked| && revoked[j] == x;
      if j != i {
        assert t.refreshTokens[j].token != t.refreshTokens[i].token;
      }
    }
    var after := r.tables.refreshTokens;
    forall j | 0 <= j < |after| ensures !IsActive(after[j], oldValue) {
      if j < |after| - 1 {
        assert after[j] in Purge(revoked, u, now);
      }
    }
  }

  method RefreshAccessTokenAsync(db: EmpresaDbContext, oldRefreshToken: string, newValue: string, now: int, saveFails: bool)
    returns (result: AuthResult)
    requires db.Valid()
    modifies db
    ensures db.Valid()
    ensures AuthOutcome(result, db.Contents()) == RefreshSpec(old(db.Contents()), oldRefreshToken, newValue, now, saveFails)
  {
    var found := FindActive(db.refreshTokens, oldRefreshToken);
    if found.None? || db.refreshTokens[found.value].expires < now {
      return NoPair;
    }
    var transaction := db.Contents();
    var i := found.value;
    var tokenGuardado := db.refreshTokens[i].(isRevoked := true);
    db.refreshTokens := db.refreshTokens[i := tokenGuardado];
    var userId := tokenGuardado.usuarioId;
    if userId !in VisibleUsuarios(db.usuarios) {
      db.Write(transaction);
      return Failed(PlainException);
    }
    var newRefreshToken := GenerateRefreshToken(newValue, now);
    SaveRefreshTokenWithoutSave(db, userId, newRefreshToken, now);
    if saveFails {
      db.Write(transaction);
      return Failed(StorageException);
    }
    return Pair(userId, newRefreshToken.(usuarioId := userId));
  }

  // ---------------------------------------------------------------------------
  // LoginAsync
  // ---------------------------------------------------------------------------

  /** The user the login query finds: a visible user with that email. The
      query includes the person through a required navigation, which Entity
      Framework turns into an inner join under the person's query filter, so
      the person must be present and not flagged. */
  predicate LoginMatch(t: Tables, email: string, k: int) {
    && k in VisibleUsuarios(t.usuarios) && t.usuarios[k].correo == email
    && t.usuarios[k].personaId in t.personas && !t.personas[t.usuarios[k].personaId].estaEliminado
  }

  /** The unique index on Correo makes the login query's match unique. */
  lemma LoginMatchUnique(t: Tables, email: string, a: int, b: int)
    requires ValidTables(t) && LoginMatch(t, email, a) && LoginMatch(t, email, b)
    ensures a == b
  {
    assert a in t.usuarios && b in t.usuarios;
    assert t.usuarios[a].correo == t.usuarios[b].correo;
  }

  /** `LoginAsync` as written, on tables `t`: the password is never looked at.
      The check of the person's flag after the query can never fail, since
      the query already leaves out users whose person is flagged. */
  ghost function LoginAsWrittenSpec(t: Tables, email: string, password: string, newValue: string, now: int, saveFails: bool): AuthOutcome {
    if !exists k :: LoginMatch(t, email, k) then
      AuthOutcome(NoPair, t)
    else
      var k :| LoginMatch(t, email, k);
      if saveFails then
        AuthOutcome(Failed(StorageException), t)
      else
        var issued := GenerateRefreshToken(newValue, now).(usuarioId := k);
        AuthOutcome(Pair(k, issued), t.(refreshTokens := Purge(t.refreshTokens, k, now) + [issued]))
  }

  /** As written, login never consults the password: any two passwords give
      the same outcome. */
  lemma LoginIgnoresPassword(t: Tables, email: string, p1: string, p2: string, newValue: string, now: int, saveFails: bool)
    ensures LoginAsWrittenSpec(t, email, p1, newValue, now, saveFails) == LoginAsWrittenSpec(t, email, p2, newValue, now, saveFails)
  {
  }

  /** As written, a known email whose person is visible gets a token pair
      with any password at all, whatever the stored hash. */
  lemma LoginAsWrittenAcceptsAnyPassword(t: Tables, email: string, password: string, newValue: string, now: int, k: int)
    requires ValidTables(t) && LoginMatch(t, email, k)
    ensures LoginAsWrittenSpec(t, email, password, newValue, now, false).result
      == Pair(k, RefreshToken(newValue, now + SevenDays, now, false, k))
  {
    var k' :| LoginMatch(t, email, k');
    LoginMatchUnique(t, email, k, k');
  }

  /** `LoginAsync` as evidently intended: the same steps, and a password
      that does not verify against the stored hash (`verify(password, hash)`
      stands for `BCrypt.Verify`) gets no pair either. */
  ghost function LoginSpec(t: Tables, email: string, password: string, verify: (string, string) -> bool,
                           newValue: string, now: int, saveFails: bool): AuthOutcome {
    if !exists k :: LoginMatch(t, email, k) then
      AuthOutcome(NoPair, t)
    else
      var k :| LoginMatch(t, email, k);
      if !verify(password, t.usuarios[k].contrasenia) then
        AuthOutcome(NoPair, t)
      else if saveFails then
        AuthOutcome(Failed(StorageException), t)
      else
        var issued := GenerateRefreshToken(newValue, now).(usuarioId := k);
        AuthOutcome(Pair(k, issued), t.(refreshTokens := Purge(t.refreshTokens, k, now) + [issued]))
  }

  /** A password that does not verify against the hash stored for the email
      gets no pair and changes nothing. */
  lemma LoginRejectsWrongPassword(t: Tables, email: string, password: string, verify: (string, string) -> bool,
                                  newValue: string, now: int, saveFails: bool, k: int)
    requires ValidTables(t) && LoginMatch(t, email, k)
    requires !verify(password, t.usuarios[k].contrasenia)
    ensures var r := LoginSpec(t, email, password, verify, newValue, now, saveFails);
      !r.result.Pair? && r.tables == t
  {
    var k' :| LoginMatch(t, email, k');
    LoginMatchUnique(t, email, k, k');
  }

  /** Once the password verifies, the corrected login agrees with the login
      as written. */
  lemma LoginAgreesWhenPasswordVerifies(t: Tables, email: string, password: string, verify: (string, string) -> bool,
                                        newValue: string, now: int, saveFails: bool)
    requires ValidTables(t)
    requires forall k :: LoginMatch(t, email, k) ==> verify(password, t.usuarios[k].contrasenia)
    ensures LoginSpec(t, email, password, verify, newValue, now, saveFails) == LoginAsWrittenSpec(t, email, password, newValue, now, saveFails)
  {
    if exists k :: LoginMatch(t, email, k) {
      var k :| LoginMatch(t, email, k);
      var k1 :| LoginMatch(t, email, k1);
      var k2 :| LoginMatch(t, email, k2);
      LoginMatchUnique(t, email, k, k1);
      LoginMatchUnique(t, email, k, k2);
    }
  }

  /** What a login does:
      - an unknown email, or one whose person is soft-deleted, gets no pair;
      - a successful login is for the user holding the email, with a visible
        person and a password that verifies against the stored hash;
      - it persists exactly one new token for that user, after dropping the
        user's expired tokens;
      - any other outcome changes nothing. */
  lemma LoginEffect(t: Tables, email: string, password: string, verify: (string, string) -> bool,
                    newValue: string, now: int, saveFails: bool)
    requires ValidTables(t)
    ensures var r := LoginSpec(t, email, password, verify, newValue, now, saveFails);
      && ((forall k :: !LoginMatch(t, email, k)) ==> r == AuthOutcome(NoPair, t))
      && (forall k :: k in VisibleUsuarios(t.usuarios) && t.usuarios[k].correo == email
                      && t.usuarios[k].personaId in t.personas && t.personas[t.usuarios[k].personaId].estaEliminado ==>
            r == AuthOutcome(NoPair, t))
      && (!r.result.Pair? ==> r.tables == t)
      && (r.result.Pair? ==>
            var k := r.result.usuarioId;
            && LoginMatch(t, email, k) && t.usuarios[k].personaId in t.personas
            && !t.personas[t.usuarios[k].personaId].estaEliminado && !saveFails
            && verify(password, t.usuarios[k].contrasenia)
            && r.result.refresh == RefreshToken(newValue, now + SevenDays, now, false, k)
            && r.tables == t.(refreshTokens := Purge(t.refreshTokens, k, now) + [r.result.refresh]))
  {
    forall k | k in VisibleUsuarios(t.usuarios) && t.usuarios[k].correo == email
               && t.usuarios[k].personaId in t.personas && t.personas[t.usuarios[k].personaId].estaEliminado
      ensures LoginSpec(t, email, password, verify, newValue, now, saveFails) == AuthOutcome(NoPair, t)
    {
      assert !exists k' :: LoginMatch(t, email, k');
    }
  }

  /** A successful login adds exactly one token of its user and leaves the
      other users' tokens as they were. */
  lemma LoginAddsOneToken(t: Tables, email: string, password: string, verify: (string, string) -> bool,
                          newValue: string, now: int, saveFails: bool, v: int)
    ensures var r := LoginSpec(t, email, password, verify, newValue, now, saveFails);
      r.result.Pair? ==>
        && OfUser(r.tables.refreshTokens, r.result.usuarioId) == OfUser(Purge(t.refreshTokens, r.result.usuarioId, now), r.result.usuarioId) + [r.result.refresh]
        && (v != r.result.usuarioId ==> OfUser(r.tables.refreshTokens, v) == OfUser(t.refreshTokens, v))
  {
    var r := LoginSpec(t, email, password, verify, newValue, now, saveFails);
    if r.result.Pair? {
      var k := r.result.usuarioId;
      OfUserAppend(Purge(t.refreshTokens, k, now), [r.result.refresh], k);
      assert OfUser([r.result.refresh], k) == [r.result.refresh];
      if v != k {
        OfUserAppend(Purge(t.refreshTokens, k, now), [r.result.refresh], v);
        assert OfUser([r.result.refresh], v) == [];
        PurgeKeepsOtherUsers(t.refreshTokens, k, v, now);
      }
    }
  }

  /** `LoginAsync` with the password check it evidently lacks. */
  method LoginAsync(db: EmpresaDbContext, email: string, password: string, verify: (string, string) -> bool,
                    newValue: string, now: int, saveFails: bool)
    returns (result: AuthResult)
    requires db.Valid()
    modifies db
    ensures db.Valid()
    ensures AuthOutcome(result, db.Contents()) == LoginSpec(old(db.Contents()), email, password, verify, newValue, now, saveFails)
  {
    var transaction := db.Contents();
    if !exists k :: k in VisibleUsuarios(db.usuarios) && LoginMatch(transaction, email, k) {
      return NoPair;
    }
    var userId :| userId in VisibleUsuarios(db.usuarios) && LoginMatch(transaction, email, userId);
    ghost var chosen :| LoginMatch(transaction, email, chosen);
    LoginMatchUnique(transaction, email, chosen, userId);
    if !verify(password, db.usuarios[userId].contrasenia) {
      return NoPair;
    }
    var refreshToken := GenerateRefreshToken(newValue, now);
    SaveRefreshTokenWithoutSave(db, userId, refreshToken, now);
    if saveFails {
      db.Write(transaction);
      return Failed(StorageException);
    }
    return Pair(userId, refreshToken.(usuarioId := userId));
  }
}
