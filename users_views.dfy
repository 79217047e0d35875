/**
 The account endpoints: login with its fixed order of checks, registration,
 the password-reset lifecycle (request, verify, confirm) and the signed-in
 password change.

 Token issuance (JWT) and e-mail delivery are outside the model: a login or
 registration result carries the user and profile the response serializes,
 and whether the reset mail could be sent is an input.
 */
module UserViews {
  import opened Common
  import opened UserModels
  import opened UserSerializers

  const LoginRequired := "Correo y contraseña son requeridos."
  const BadCredentials := "Credenciales incorrectas."
  const NoStudentProfile := "Perfil de estudiante no configurado. Contacta al administrador."
  const NoTeacherProfile := "Perfil de docente no configurado. Contacta al administrador."
  const Deactivated := "Cuenta desactivada."
  const NoSuchActiveUser := "No existe un usuario con este correo electrónico."
  const TokenRequired := "Token requerido"
  const TokenUnknown := "Token inválido"
  const TokenSpent := "Token expirado o ya utilizado"

  /** The `perfil` of a login or registration response. */
  datatype Profile = StudentData(student: StudentProfile) | TeacherData(teacher: TeacherProfile)

  datatype Session = Session(user: User, perfil: Option<Profile>)

  /** The role's own profile, when the user has it; none for administrators. */
  function ProfileOf(u: User): (p: Option<Profile>)
    ensures p.Some? && p.value.StudentData? <==> u.rol == Estudiante && u.studentProfile.Some?
    ensures p.Some? && p.value.TeacherData? <==> u.rol == Docente && u.teacherProfile.Some?
    ensures u.rol == Admin ==> p.None?
  {
    if u.rol == Estudiante && u.studentProfile.Some? then Some(StudentData(u.studentProfile.value))
    else if u.rol == Docente && u.teacherProfile.Some? then Some(TeacherData(u.teacherProfile.value))
    else None
  }

  /** `User.objects.get(correo=...)` over a table whose `correo` is unique: the first match. */
  function FindByCorreo(users: seq<User>, correo: string): (r: Option<User>)
    ensures r.Some? ==> r.value in users && r.value.correo == correo
    ensures r.None? <==> forall i :: 0 <= i < |users| ==> users[i].correo != correo
  {
    if users == [] then None
    else if users[0].correo == correo then Some(users[0])
    else FindByCorreo(users[1..], correo)
  }

  /** A user the login handler turns away for lacking the profile of the user's role. */
  predicate LacksRoleProfile(u: User) {
    (u.rol == Estudiante && u.studentProfile.None?) || (u.rol == Docente && u.teacherProfile.None?)
  }

  /**
   `login_view`: both values present (the address after stripping), a known
   address, the role's profile, an active account, the right password, in
   that order.
   */
  function Login(users: seq<User>, correo: string, password: string): (r: Result<Session>)
    ensures Strip(correo) == [] || password == [] ==> r == Err(BadRequest(LoginRequired))
    ensures r.Ok? <==> (Strip(correo) != [] && password != [] && FindByCorreo(users, Strip(correo)).Some?
      && var u := FindByCorreo(users, Strip(correo)).value;
         !LacksRoleProfile(u) && u.isActive && CheckPassword(password, u.password))
    ensures r.Ok? ==> (r.value.user == FindByCorreo(users, Strip(correo)).value
      && r.value.perfil == ProfileOf(r.value.user) && r.value.user.correo == Strip(correo))
    ensures r.Ok? && r.value.user.rol == Estudiante ==> r.value.perfil.Some? && r.value.perfil.value.StudentData?
    ensures r.Ok? && r.value.user.rol == Docente ==> r.value.perfil.Some? && r.value.perfil.value.TeacherData?
    ensures r.Err? ==> r.failure.BadRequest?
  {
    var c := Strip(correo);
    if c == [] || password == [] then Err(BadRequest(LoginRequired))
    else match FindByCorreo(users, c)
      case None => Err(BadRequest(BadCredentials))
      case Some(u) =>
        if u.rol == Estudiante && u.studentProfile.None? then Err(BadRequest(NoStudentProfile))
        else if u.rol == Docente && u.teacherProfile.None? then Err(BadRequest(NoTeacherProfile))
        else if !u.isActive then Err(BadRequest(Deactivated))
        else if !CheckPassword(password, u.password) then Err(BadRequest(BadCredentials))
        else Ok(Session(u, ProfileOf(u)))
  }

  /**
   An unknown address and a wrong password for a known, active, complete
   account get the same answer, so the response does not reveal which
   addresses are registered.
   */
  lemma {:induction false} UnknownAndWrongPasswordAlike(users: seq<User>, correo: string, password: string, u: User)
    requires Strip(correo) != [] && password != []
    requires forall i :: 0 <= i < |users| ==> users[i].correo != Strip(correo)
    requires u.correo == Strip(correo) && u.isActive && !LacksRoleProfile(u) && !CheckPassword(password, u.password)
    ensures Login(users, correo, password) == Login([u] + users, correo, password)
    ensures Login(users, correo, password) == Err(BadRequest(BadCredentials))
  {
    assert FindByCorreo([u] + users, Strip(correo)) == Some(u);
  }

  /** The profile check comes first: a user without the role's profile hears about it whatever the password or state. */
  lemma ProfileCheckedBeforeActiveAndPassword(users: seq<User>, correo: string, password: string)
    requires Strip(correo) != [] && password != []
    requires FindByCorreo(users, Strip(correo)).Some? && LacksRoleProfile(FindByCorreo(users, Strip(correo)).value)
    ensures Login(users, correo, password) == Err(BadRequest(
      if FindByCorreo(users, Strip(correo)).value.rol == Estudiante then NoStudentProfile else NoTeacherProfile))
  {
  }

  /** An inactive account is reported as such, before the password is looked at. */
  lemma InactiveBeforePassword(users: seq<User>, correo: string, password: string)
    requires Strip(correo) != [] && password != []
    requires FindByCorreo(users, Strip(correo)).Some?
    requires !LacksRoleProfile(FindByCorreo(users, Strip(correo)).value) && !FindByCorreo(users, Strip(correo)).value.isActive
    ensures Login(users, correo, password) == Err(BadRequest(Deactivated))
  {
  }

  /** The usernames already in use. */
  function Usernames(users: seq<User>): (r: set<string>)
    ensures forall i :: 0 <= i < |users| ==> users[i].username in r
    ensures forall s :: s in r ==> exists i :: 0 <= i < |users| && users[i].username == s
  {
    set i | 0 <= i < |users| :: users[i].username
  }

  /** Every unused token of `user` marked used: `filter(user=..., is_used=False).update(is_used=True)`. */
  function Invalidate(tokens: map<Uuid, ResetToken>, user: UserId): (r: map<Uuid, ResetToken>)
    ensures r.Keys == tokens.Keys
    ensures forall k :: k in tokens && tokens[k].user == user ==> r[k] == tokens[k].(isUsed := true)
    ensures forall k :: k in tokens && tokens[k].user != user ==> r[k] == tokens[k]
  {
    map k | k in tokens :: if tokens[k].user == user then tokens[k].(isUsed := true) else tokens[k]
  }

  /** The `token` query parameter of the verify endpoint. */
  datatype TokenParam = NoToken | MalformedToken | TokenValue(uuid: Uuid)

  datatype TokenCheck = TokenValid(userEmail: string) | TokenInvalid(message: string)

  /** The account store: users with their profiles, and the password-reset tokens. */
  class Accounts {
    var users: seq<User>
    var tokens: map<Uuid, ResetToken>
    var nextId: nat

    ghost predicate Valid()
      reads this
    {
      StoreValid(users, tokens, nextId)
    }

    constructor ()
      ensures Valid() && users == [] && tokens == map[] && nextId == 0
    {
      users, tokens, nextId := [], map[], 0;
    }

    /**
     `register_view`: on a passing check, a new active user with a unique
     username and the hashed password, and the role's profile. A teacher
     without a hire date is stored without a profile and the request fails.
     A second empty cédula passes the serializer but not the unique column:
     the insert fails and nothing is stored.
     */
    method Register(f: RegisterForm) returns (r: Result<Session>)
      requires Valid()
      modifies this`users, this`nextId
      ensures Valid()
      ensures RegisterCheck(old(users), f).Err? ==>
        r == Err(RegisterCheck(old(users), f).failure) && users == old(users) && nextId == old(nextId)
      ensures RegisterCheck(old(users), f).Ok? && CedulaInUse(old(users), f.cedula) ==>
        r == Err(ServerError) && users == old(users) && nextId == old(nextId)
      ensures RegisterCheck(old(users), f).Ok? && !CedulaInUse(old(users), f.cedula) ==>
        && |users| == |old(users)| + 1 && users[..|old(users)|] == old(users)
        && users[|old(users)|] == NewUser(old(nextId), users[|old(users)|].username, f)
        && users[|old(users)|].username !in Usernames(old(users))
        && (r.Ok? <==> !(f.rol.GetOr(DefaultRole) == Docente && f.hireDate.None?))
        && (r.Ok? ==> r.value == Session(users[|old(users)|], ProfileOf(users[|old(users)|])))
        && (r.Err? ==> r == Err(ServerError))
    {
      var check := RegisterCheck(users, f);
      if check.Err? {
        return Err(check.failure);
      }
      var username := ChooseUsername(Usernames(users), f.correo);
      if CedulaInUse(users, f.cedula) {
        return Err(ServerError);
      }
      if check.value == Estudiante {
        StudentRegistrationComplete(users, f);
      }
      var u := NewUser(nextId, username, f);
      AddUserKeepsValid(users, tokens, nextId, u);
      users := users + [u];
      nextId := nextId + 1;
      if u.rol == Docente && f.hireDate.None? {
        return Err(ServerError);
      }
      return Ok(Session(u, ProfileOf(u)));
    }

    /**
     `password_reset_request_view`: for an active user's address, every
     unused token of that user is spent and the new one stored. A mail
     failure is a 500 after the tokens have changed.
     */
    method RequestReset(correo: string, newToken: Uuid, now: Time, mailSent: bool) returns (r: Result<Uuid>)
      requires Valid()
      modifies this`tokens
      ensures Valid()
      ensures ActiveByCorreo(users, correo).None? ==>
        r == Err(FieldErrors([FieldError("correo", NoSuchActiveUser)])) && tokens == old(tokens)
      ensures ActiveByCorreo(users, correo).Some? && newToken in old(tokens) ==>
        r == Err(ServerError) && tokens == Invalidate(old(tokens), ActiveByCorreo(users, correo).value.id)
      ensures ActiveByCorreo(users, correo).Some? && newToken !in old(tokens) ==>
        && tokens == Reissue(old(tokens), ActiveByCorreo(users, correo).value.id, newToken, now)
        && (r.Ok? <==> mailSent) && (r.Ok? ==> r.value == newToken) && (r.Err? ==> r == Err(ServerError))
    {
      var found := ActiveByCorreo(users, correo);
      if found.None? {
        return Err(FieldErrors([FieldError("correo", NoSuchActiveUser)]));
      }
      var uid := found.value.id;
      if newToken in tokens {
        tokens := Invalidate(tokens, uid);
        return Err(ServerError);
      }
      ReissueKeepsValid(users, tokens, nextId, uid, newToken, now);
      tokens := Reissue(tokens, uid, newToken, now);
      if !mailSent {
        return Err(ServerError);
      }
      return Ok(newToken);
    }

    /** `verify_reset_token_view`. */
    function VerifyResetToken(param: TokenParam, now: Time): (r: Result<TokenCheck>)
      reads this
      ensures param.NoToken? ==> r == Err(BadRequest(TokenRequired))
      ensures param.MalformedToken? ==> r == Err(ServerError)
      ensures param.TokenValue? && param.uuid !in tokens ==> r == Ok(TokenInvalid(TokenUnknown))
      ensures param.TokenValue? && param.uuid in tokens && !IsValid(tokens[param.uuid], now) ==> r == Ok(TokenInvalid(TokenSpent))
      ensures r.Ok? && r.value.TokenValid? ==> (param.TokenValue? && param.uuid in tokens && IsValid(tokens[param.uuid], now)
        && exists i :: 0 <= i < |users| && users[i].id == tokens[param.uuid].user && users[i].correo == r.value.userEmail)
      ensures param.TokenValue? && param.uuid in tokens && IsValid(tokens[param.uuid], now) ==>
        && (UserById(users, tokens[param.uuid].user).Some? ==>
              r == Ok(TokenValid(UserById(users, tokens[param.uuid].user).value.correo)))
        && (UserById(users, tokens[param.uuid].user).None? ==> r == Err(ServerError))
    {
      match param
      case NoToken => Err(BadRequest(TokenRequired))
      case MalformedToken => Err(ServerError)
      case TokenValue(k) =>
        if k !in tokens then Ok(TokenInvalid(TokenUnknown))
        else if !IsValid(tokens[k], now) then Ok(TokenInvalid(TokenSpent))
        else match UserById(users, tokens[k].user)
          case None => Err(ServerError)
          case Some(u) => Ok(TokenValid(u.correo))
    }

    /**
     `password_reset_confirm_view`: on a passing check, the token's user gets
     the new password and the token is spent, so the same confirmation is
     refused afterwards.
     */
    method ConfirmReset(f: ResetConfirmForm, now: Time) returns (r: Result<UserId>)
      requires Valid()
      modifies this`users, this`tokens
      ensures Valid()
      ensures ResetConfirmCheck(old(tokens), f, now).Err? ==>
        r == Err(ResetConfirmCheck(old(tokens), f, now).failure) && users == old(users) && tokens == old(tokens)
      ensures ResetConfirmCheck(old(tokens), f, now).Ok? ==>
        && r == Ok(old(tokens)[f.token].user)
        && tokens == old(tokens)[f.token := old(tokens)[f.token].(isUsed := true)]
        && |users| == |old(users)|
        && (forall i :: 0 <= i < |users| ==>
              users[i] == if old(users)[i].id == r.value then old(users)[i].(password := MakePassword(f.newPassword)) else old(users)[i])
      ensures r.Ok? ==> forall later :: ResetConfirmCheck(tokens, f, later) == Invalid(SpentToken)
    {
      var check := ResetConfirmCheck(tokens, f, now);
      if check.Err? {
        return Err(check.failure);
      }
      var t := check.value;
      SetPassword(t.user, f.newPassword);
      SpendKeepsStore(users, tokens, nextId, f.token);
      tokens := tokens[f.token := t.(isUsed := true)];
      r := Ok(t.user);
      forall later ensures ResetConfirmCheck(tokens, f, later) == Invalid(SpentToken) {
        assert !IsValid(tokens[f.token], later);
      }
    }

    /** `change_password_view` for the signed-in user `id`. */
    method ChangePassword(id: UserId, f: ChangePasswordForm) returns (r: Result<()>)
      requires Valid()
      requires exists i :: 0 <= i < |users| && users[i].id == id
      modifies this`users
      ensures Valid()
      ensures UserById(old(users), id).Some?
      ensures var check := ChangePasswordCheck(UserById(old(users), id).value, f);
        && (check.Err? ==> r == Err(check.failure) && users == old(users))
        && (check.Ok? ==> (r == Ok(()) && |users| == |old(users)|
            && forall i :: 0 <= i < |users| ==>
                 users[i] == if old(users)[i].id == id then old(users)[i].(password := MakePassword(f.newPassword)) else old(users)[i]))
    {
      UserByIdFound(users, id);
      var u := UserById(users, id).value;
      var check := ChangePasswordCheck(u, f);
      if check.Err? {
        return Err(check.failure);
      }
      SetPassword(id, f.newPassword);
      return Ok(());
    }

    /** `user.password = make_password(raw); user.save()` for the user with that id. */
    method SetPassword(id: UserId, raw: string)
      requires Valid()
      modifies this`users
      ensures Valid()
      ensures |users| == |old(users)|
      ensures forall i :: 0 <= i < |users| ==>
        users[i] == if old(users)[i].id == id then old(users)[i].(password := MakePassword(raw)) else old(users)[i]
    {
      var i := 0;
      while i < |users|
        invariant 0 <= i <= |users| == |old(users)|
        invariant forall j :: 0 <= j < i ==>
          users[j] == if old(users)[j].id == id then old(users)[j].(password := MakePassword(raw)) else old(users)[j]
        invariant forall j :: i <= j < |users| ==> users[j] == old(users)[j]
      {
        if users[i].id == id {
          users := users[i := users[i].(password := MakePassword(raw))];
        }
        i := i + 1;
      }
      forall k | k in tokens ensures exists j :: 0 <= j < |users| && users[j].id == tokens[k].user {
        var j :| 0 <= j < |old(users)| && old(users)[j].id == tokens[k].user;
        assert users[j].id == tokens[k].user;
      }
    }
  }

  /** In a consistent store every valid token belongs to a stored user, so verifying it reports that user's address. */
  lemma ValidTokenVerifies(a: Accounts, k: Uuid, now: Time)
    requires a.Valid() && k in a.tokens && IsValid(a.tokens[k], now)
    ensures UserById(a.users, a.tokens[k].user).Some?
    ensures a.VerifyResetToken(TokenValue(k), now) == Ok(TokenValid(UserById(a.users, a.tokens[k].user).value.correo))
  {
    UserByIdFound(a.users, a.tokens[k].user);
  }

  /** The user with that id. */
  function UserById(users: seq<User>, id: UserId): (r: Option<User>)
    ensures r.Some? ==> r.value in users && r.value.id == id
    ensures r.None? <==> forall i :: 0 <= i < |users| ==> users[i].id != id
  {
    if users == [] then None
    else if users[0].id == id then Some(users[0])
    else UserById(users[1..], id)
  }

  lemma UserByIdFound(users: seq<User>, id: UserId)
    requires exists i :: 0 <= i < |users| && users[i].id == id
    ensures UserById(users, id).Some?
  {
  }
  /** Ids, addresses, usernames and non-null cédulas unique; ids below `nextId`; every token's user exists. */
  ghost predicate StoreValid(users: seq<User>, tokens: map<Uuid, ResetToken>, nextId: nat) {
    && (forall i, j :: 0 <= i < j < |users| ==>
          users[i].id != users[j].id && users[i].correo != users[j].correo && users[i].username != users[j].username
          && (users[i].cedula.Some? ==> users[i].cedula != users[j].cedula))
    && (forall i :: 0 <= i < |users| ==> users[i].id < nextId)
    && (forall k :: k in tokens ==> exists i :: 0 <= i < |users| && users[i].id == tokens[k].user)
  }

  /** Marking a token used keeps the store valid: its user is unchanged. */
  lemma SpendKeepsStore(users: seq<User>, tokens: map<Uuid, ResetToken>, nextId: nat, k: Uuid)
    requires StoreValid(users, tokens, nextId) && k in tokens
    ensures StoreValid(users, tokens[k := tokens[k].(isUsed := true)], nextId)
  {
    var t := tokens[k := tokens[k].(isUsed := true)];
    forall j | j in t ensures exists i :: 0 <= i < |users| && users[i].id == t[j].user {
      assert t[j].user == tokens[j].user;
    }
  }

  /** The user `create` saves: active, with the hashed password and the role's profile. */
  function NewUser(id: UserId, username: string, f: RegisterForm): (u: User)
    requires f.rol.GetOr(DefaultRole) == Estudiante ==> f.fechaNacimiento.Some?
    ensures u.id == id && u.username == username && u.correo == f.correo && u.cedula == f.cedula
    ensures u.rol == f.rol.GetOr(DefaultRole) && u.isActive && u.password == MakePassword(f.password)
    ensures u.rol == Estudiante ==> u.studentProfile == Some(NewStudentProfile(id, f)) && u.teacherProfile.None?
    ensures u.rol == Docente ==> u.teacherProfile == NewTeacherProfile(id, f) && u.studentProfile.None?
    ensures u.rol == Admin ==> u.studentProfile.None? && u.teacherProfile.None?
  {
    var role := f.rol.GetOr(DefaultRole);
    User(id, username, f.nombreCompleto, f.cedula, f.correo, f.telefono, role, true, MakePassword(f.password),
      if role == Estudiante then Some(NewStudentProfile(id, f)) else None,
      if role == Docente then NewTeacherProfile(id, f) else None)
  }

  /**
   A cédula the unique column already holds. Null may repeat; the empty text
   may not, although `validate_cedula` only looks up a non-empty value.
   */
  predicate CedulaInUse(users: seq<User>, cedula: Option<string>) {
    cedula.Some? && exists i :: 0 <= i < |users| && users[i].cedula == cedula
  }

  /** A registration the serializer accepts clashes on the cédula column only through the empty text. */
  lemma AcceptedClashIsEmptyCedula(users: seq<User>, f: RegisterForm)
    requires RegisterCheck(users, f).Ok? && CedulaInUse(users, f.cedula)
    ensures f.cedula == Some("")
  {
    assert !CedulaTaken(users, f.cedula);
  }

  lemma AddUserKeepsValid(users: seq<User>, tokens: map<Uuid, ResetToken>, nextId: nat, u: User)
    requires StoreValid(users, tokens, nextId)
    requires u.id == nextId && !CorreoTaken(users, u.correo) && u.username !in Usernames(users)
    requires !CedulaInUse(users, u.cedula)
    ensures StoreValid(users + [u], tokens, nextId + 1)
  {
    var s := users + [u];
    forall k | k in tokens ensures exists i :: 0 <= i < |s| && s[i].id == tokens[k].user {
      var i :| 0 <= i < |users| && users[i].id == tokens[k].user;
      assert s[i] == users[i];
    }
  }

  /** `User.objects.get(correo=..., is_active=True)`. */
  function ActiveByCorreo(users: seq<User>, correo: string): (r: Option<User>)
    ensures r.Some? ==> r.value in users && r.value.correo == correo && r.value.isActive
    ensures (forall i :: 0 <= i < |users| ==> !(users[i].correo == correo && users[i].isActive)) ==> r.None?
    ensures ((forall i, j :: 0 <= i < j < |users| ==> users[i].correo != users[j].correo)
             && (exists i :: 0 <= i < |users| && users[i].correo == correo && users[i].isActive)) ==> r.Some?
  {
    match FindByCorreo(users, correo)
    case Some(u) => if u.isActive then Some(u) else None
    case None => None
  }

  /** The token table after a reset request of `user`: old unused tokens spent, the new one added. */
  function Reissue(tokens: map<Uuid, ResetToken>, user: UserId, newToken: Uuid, now: Time): map<Uuid, ResetToken> {
    Invalidate(tokens, user)[newToken := NewResetToken(user, now)]
  }

  /**
   After a reset request the new token is the user's only unused one, valid
   for the next hour, and other users' tokens are as they were.
   */
  lemma ReissueSpec(tokens: map<Uuid, ResetToken>, user: UserId, newToken: Uuid, now: Time)
    requires newToken !in tokens
    ensures var r := Reissue(tokens, user, newToken, now);
      && r.Keys == tokens.Keys + {newToken}
      && IsValid(r[newToken], now) && r[newToken].user == user
      && (forall k :: k in r && r[k].user == user && !r[k].isUsed ==> k == newToken)
      && (forall k :: k in tokens && tokens[k].user != user ==> r[k] == tokens[k])
  {
    NewTokenValidForOneHour(user, now, now);
  }

  lemma ReissueKeepsValid(users: seq<User>, tokens: map<Uuid, ResetToken>, nextId: nat, user: UserId, newToken: Uuid, now: Time)
    requires StoreValid(users, tokens, nextId)
    requires exists i :: 0 <= i < |users| && users[i].id == user
    ensures StoreValid(users, Reissue(tokens, user, newToken, now), nextId)
  {
  }
}
