/**
 Users, their role-specific profiles and password-reset tokens.

 A user has one role; a student user is expected to own one student profile
 and a teacher user one teacher profile, but the store does not enforce it,
 so every handler checks for the profile. Passwords are stored only through
 the framework's hasher, modelled here as an injective tagging.
 */
module UserModels {
  import opened Common

  datatype Role = Estudiante | Docente | Admin

  /** `rol` when none is given. */
  const DefaultRole: Role := Estudiante

  type UserId = nat

  /** A calendar date, as a day number (see `Common.Day`). */
  type Date = int

  /** `make_password(raw)`: opaque but injective (salting is not modelled). */
  datatype PasswordHash = Hashed(secret: string)

  function MakePassword(raw: string): PasswordHash {
    Hashed(raw)
  }

  /** `check_password(raw, hash)`. */
  predicate CheckPassword(raw: string, hash: PasswordHash) {
    MakePassword(raw) == hash
  }

  datatype StudentProfile = StudentProfile(
    id: nat,
    nivelEstudio: string,
    fechaNacimiento: Date,
    genero: string,
    estadoCivil: string,
    parroquia: string,
    origenIngresos: string)

  datatype TeacherProfile = TeacherProfile(id: nat, especialization: string, hireDate: Date)

  datatype User = User(
    id: UserId,
    username: string,
    nombreCompleto: string,
    cedula: Option<string>,
    correo: string,
    telefono: Option<string>,
    rol: Role,
    isActive: bool,
    password: PasswordHash,
    studentProfile: Option<StudentProfile>,
    teacherProfile: Option<TeacherProfile>)

  /** `User.get_full_name()`. */
  function GetFullName(u: User): string {
    u.nombreCompleto
  }

  /** `User.primer_nombre`: `nombre_completo.split(' ')[0]`. */
  function PrimerNombre(u: User): (r: string)
    ensures r <= GetFullName(u)
    ensures ' ' !in r
    ensures r == GetFullName(u) || GetFullName(u)[|r|] == ' '
  {
    BeforeFirst(u.nombreCompleto, ' ')
  }

  /** A name without spaces is its own first name; otherwise the first name stops at the first space. */
  lemma PrimerNombreCases(u: User)
    ensures ' ' !in GetFullName(u) ==> PrimerNombre(u) == GetFullName(u)
    ensures ' ' in GetFullName(u) ==> |PrimerNombre(u)| < |GetFullName(u)|
  {
  }

  // ---------------------------------------------------------------------
  // Password-reset tokens

  /** Token values are UUIDs; only their identity matters here. */
  type Uuid = nat

  datatype ResetToken = ResetToken(user: UserId, createdAt: Time, expiresAt: Time, isUsed: bool)

  /** What `PasswordResetToken.save` stores as `expires_at`: the given one, or one hour after `now`. */
  function SavedExpiry(expiresAt: Option<Time>, now: Time): Time {
    if expiresAt.None? then now + SecondsPerHour else expiresAt.value
  }

  /** A token as `PasswordResetToken.objects.create(user=...)` saves it at `now`. */
  function NewResetToken(user: UserId, now: Time): (t: ResetToken)
    ensures t.user == user && !t.isUsed && t.createdAt == now
    ensures t.expiresAt - t.createdAt == 60 * 60
  {
    ResetToken(user, now, SavedExpiry(None, now), false)
  }

  /** `is_expired`: strictly after `expires_at`. */
  predicate IsExpired(t: ResetToken, now: Time) {
    now > t.expiresAt
  }

  /** `is_valid`: neither used nor expired. */
  predicate IsValid(t: ResetToken, now: Time) {
    !t.isUsed && !IsExpired(t, now)
  }

  /** An existing expiry is kept by `save`. */
  lemma SaveKeepsExpiry(e: Time, now: Time)
    ensures SavedExpiry(Some(e), now) == e
  {
  }

  /** A token created at `now` is valid exactly until one hour later, the last second included. */
  lemma {:induction false} NewTokenValidForOneHour(user: UserId, now: Time, at: Time)
    ensures IsValid(NewResetToken(user, now), at) <==> at <= now + SecondsPerHour
  {
    var t := NewResetToken(user, now);
    assert t.expiresAt == now + SecondsPerHour;
  }

  /** A used token is never valid, whatever the time. */
  lemma UsedTokenNeverValid(t: ResetToken, now: Time)
    requires t.isUsed
    ensures !IsValid(t, now)
  {
  }
}
