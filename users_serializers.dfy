/**
 The account serializers: registration checks and the records registration
 creates (with the unique username loop), and the checks of the reset-confirm
 and change-password forms.

 Form values are taken as the serializer fields deliver them after the
 framework's own field parsing: text whitespace-trimmed, dates and the reset
 token parsed, the role a valid choice or absent. The errors that parsing
 raises itself (a missing or blank required value, a malformed address, a
 text over its `max_length`, an unknown role) are outside the model. The
 field errors modelled here are collected in the serializer's field order;
 `validate` runs only when there are none, and its error is reported under
 `non_field_errors`.
 */
module UserSerializers {
  import opened Common
  import opened UserModels

  const PasswordsDiffer := "Las contraseñas no coinciden."
  const DuplicateCorreo := "Ya existe un usuario con este correo electrónico."
  const DuplicateCedula := "Ya existe un usuario con esta cédula."
  const EspecializationRequired := "La especialización es requerida para docentes."
  const WrongCurrentPassword := "La contraseña actual es incorrecta."
  const UnknownToken := "Token inválido."
  const SpentToken := "El token ha expirado o ya fue utilizado."

  /** The framework's text for a `min_length` violation. */
  const TooShort := "Ensure this field has at least 6 characters."
  const MinPasswordLength := 6

  const NonField := "non_field_errors"

  function StudentFieldRequired(field: string): string {
    "El campo " + field + " es requerido para estudiantes."
  }

  /** A `validate` failure: one message under `non_field_errors`. */
  function Invalid<T>(message: string): Result<T> {
    Err(FieldErrors([FieldError(NonField, message)]))
  }

  // ---------------------------------------------------------------------
  // RegisterSerializer

  /** `rol == None`: the request did not send `rol` (the field is optional because the model has a default). */
  datatype RegisterForm = RegisterForm(
    nombreCompleto: string, correo: string, cedula: Option<string>, telefono: Option<string>,
    rol: Option<Role>, password: string, confirmPassword: string,
    nivelEstudio: Option<string>, fechaNacimiento: Option<Date>, genero: Option<string>, estadoCivil: Option<string>,
    parroquia: Option<string>, origenIngresos: Option<string>,
    especialization: Option<string>, hireDate: Option<Date>)

  /** Python truthiness of an optional text value. */
  predicate Filled(v: Option<string>) {
    v.Some? && v.value != ""
  }

  predicate CorreoTaken(users: seq<User>, correo: string) {
    exists i :: 0 <= i < |users| && users[i].correo == correo
  }

  /** `validate_cedula`: only a non-empty cédula is looked up. */
  predicate CedulaTaken(users: seq<User>, cedula: Option<string>) {
    Filled(cedula) && exists i :: 0 <= i < |users| && users[i].cedula == cedula
  }

  /** The field-level errors: duplicate correo, duplicate cédula, short password, in field order. */
  function RegisterFieldErrors(users: seq<User>, f: RegisterForm): (errs: seq<FieldError>)
    ensures errs == [] <==> !CorreoTaken(users, f.correo) && !CedulaTaken(users, f.cedula) && |f.password| >= MinPasswordLength
    ensures FieldError("correo", DuplicateCorreo) in errs <==> CorreoTaken(users, f.correo)
    ensures FieldError("cedula", DuplicateCedula) in errs <==> CedulaTaken(users, f.cedula)
    ensures FieldError("password", TooShort) in errs <==> |f.password| < MinPasswordLength
    ensures f.cedula.None? || f.cedula == Some("") ==> FieldError("cedula", DuplicateCedula) !in errs
  {
    (if CorreoTaken(users, f.correo) then [FieldError("correo", DuplicateCorreo)] else [])
    + (if CedulaTaken(users, f.cedula) then [FieldError("cedula", DuplicateCedula)] else [])
    + (if |f.password| < MinPasswordLength then [FieldError("password", TooShort)] else [])
  }

  const StudentFieldNames: seq<string> := ["nivel_estudio", "fecha_nacimiento", "genero", "estado_civil"]

  /** Whether each required student field is truthy, in `StudentFieldNames` order. */
  function StudentFieldsGiven(f: RegisterForm): seq<bool> {
    [Filled(f.nivelEstudio), f.fechaNacimiento.Some?, Filled(f.genero), Filled(f.estadoCivil)]
  }

  /** Index of the first unset flag. */
  function FirstUnset(flags: seq<bool>): (r: Option<nat>)
    ensures r.Some? ==> r.value < |flags| && !flags[r.value]
    ensures r.Some? ==> forall j :: 0 <= j < r.value ==> flags[j]
    ensures r.None? <==> forall j :: 0 <= j < |flags| ==> flags[j]
  {
    if flags == [] then None
    else if !flags[0] then Some(0)
    else match FirstUnset(flags[1..])
      case None => None
      case Some(k) => Some(k + 1)
  }

  /** The role-dependent requirements of `validate`, for a role already known. */
  function RoleRequirements(f: RegisterForm, role: Role): (r: Result<Role>)
    ensures r.Ok? ==> r.value == role
    ensures role == Admin ==> r.Ok?
    ensures role == Docente ==> (r.Ok? <==> Filled(f.especialization))
    ensures role == Docente && r.Err? ==> r == Invalid(EspecializationRequired)
    ensures role == Estudiante ==> (r.Ok? <==>
      Filled(f.nivelEstudio) && f.fechaNacimiento.Some? && Filled(f.genero) && Filled(f.estadoCivil))
    ensures role == Estudiante && r.Err? ==>
      exists k :: 0 <= k < 4 && !StudentFieldsGiven(f)[k] && (forall j :: 0 <= j < k ==> StudentFieldsGiven(f)[j])
        && r == Invalid(StudentFieldRequired(StudentFieldNames[k]))
  {
    match role
    case Estudiante =>
      var given := StudentFieldsGiven(f);
      assert (forall j :: 0 <= j < |given| ==> given[j]) <==> given[0] && given[1] && given[2] && given[3];
      (match FirstUnset(given)
       case Some(k) => Invalid(StudentFieldRequired(StudentFieldNames[k]))
       case None => Ok(role))
    case Docente =>
      if !Filled(f.especialization) then Invalid(EspecializationRequired) else Ok(role)
    case Admin => Ok(role)
  }

  /**
   `RegisterSerializer.validate` as written: it reads `data['rol']`, which is
   absent when the request leaves the optional `rol` out, and the `KeyError`
   escapes the serializer as a server error.
   */
  function ValidateAsWritten(f: RegisterForm): (r: Result<Role>)
    ensures f.password != f.confirmPassword ==> r == Invalid(PasswordsDiffer)
    ensures f.password == f.confirmPassword && f.rol.None? ==> r == Err(ServerError)
    ensures f.rol.Some? ==> r == Validate(f)
  {
    if f.password != f.confirmPassword then Invalid(PasswordsDiffer)
    else if f.rol.None? then Err(ServerError)
    else RoleRequirements(f, f.rol.value)
  }

  /** `validate` with an absent `rol` read as the model's default, `estudiante`. */
  function Validate(f: RegisterForm): (r: Result<Role>)
    ensures f.password != f.confirmPassword ==> r == Invalid(PasswordsDiffer)
    ensures r.Ok? ==> f.password == f.confirmPassword && r.value == f.rol.GetOr(DefaultRole)
    ensures f.password == f.confirmPassword ==> r == RoleRequirements(f, f.rol.GetOr(DefaultRole))
  {
    if f.password != f.confirmPassword then Invalid(PasswordsDiffer)
    else RoleRequirements(f, f.rol.GetOr(DefaultRole))
  }

  /**
   A complete student registration that leaves `rol` out: a server error as
   written, an accepted student with the default role read in.
   */
  lemma RolOmittedDiscrepancy()
    ensures var f := RegisterForm("Ana Ruiz", "ana@example.com", None, None, None, "secreto", "secreto",
      Some("A1"), Some(11000), Some("F"), Some("soltera"), None, None, None, None);
      ValidateAsWritten(f) == Err(ServerError) && Validate(f) == Ok(Estudiante)
  {
    var f := RegisterForm("Ana Ruiz", "ana@example.com", None, None, None, "secreto", "secreto",
      Some("A1"), Some(11000), Some("F"), Some("soltera"), None, None, None, None);
    var given := StudentFieldsGiven(f);
    assert given[0] && given[1] && given[2] && given[3];
    assert Validate(f) == RoleRequirements(f, Estudiante);
  }

  /** The whole registration check: field errors first, then `validate`. */
  function RegisterCheck(users: seq<User>, f: RegisterForm): (r: Result<Role>)
    ensures RegisterFieldErrors(users, f) != [] ==> r == Err(FieldErrors(RegisterFieldErrors(users, f)))
    ensures r.Ok? <==> RegisterFieldErrors(users, f) == [] && Validate(f).Ok?
    ensures r.Ok? ==> r.value == f.rol.GetOr(DefaultRole)
    ensures r.Ok? ==> |f.password| >= MinPasswordLength && f.password == f.confirmPassword
    ensures r.Ok? ==> !CorreoTaken(users, f.correo) && !CedulaTaken(users, f.cedula)
  {
    var errs := RegisterFieldErrors(users, f);
    if errs != [] then Err(FieldErrors(errs)) else Validate(f)
  }

  /** An accepted student registration carries every field the student profile requires. */
  lemma StudentRegistrationComplete(users: seq<User>, f: RegisterForm)
    requires RegisterCheck(users, f) == Ok(Estudiante)
    ensures Filled(f.nivelEstudio) && f.fechaNacimiento.Some? && Filled(f.genero) && Filled(f.estadoCivil)
  {
    assert Validate(f) == RoleRequirements(f, Estudiante);
  }

  /** A student with a level and a birth date but no gender is told that `genero` is required. */
  lemma StudentMissingGenero(users: seq<User>, f: RegisterForm)
    requires RegisterFieldErrors(users, f) == [] && f.password == f.confirmPassword && f.rol == Some(Estudiante)
    requires Filled(f.nivelEstudio) && f.fechaNacimiento.Some? && !Filled(f.genero)
    ensures RegisterCheck(users, f) == Invalid(StudentFieldRequired("genero"))
  {
    var given := StudentFieldsGiven(f);
    assert given[2..] == [false, Filled(f.estadoCivil)];
    assert FirstUnset(given[1..]) == Some(1) by {
      assert given[1..][1..] == given[2..];
    }
    assert FirstUnset(given) == Some(2);
    assert RoleRequirements(f, Estudiante) == Invalid(StudentFieldRequired(StudentFieldNames[2]));
  }

  // ---------------------------------------------------------------------
  // RegisterSerializer.create

  /** The k-th username tried: the base itself, then the base followed by 1, 2, ... */
  function Candidate(base: string, k: nat): (r: string)
    ensures base <= r
    ensures k == 0 <==> r == base
  {
    if k == 0 then base else base + NatToString(k)
  }

  lemma CandidateInjective(base: string, a: nat, b: nat)
    requires Candidate(base, a) == Candidate(base, b)
    ensures a == b
  {
    if a != 0 && b != 0 {
      PrefixedCounterInjective(base, a, b);
    }
  }

  /**
   The username loop of `create`: the text of `correo` before the first `@`
   if unused, else that text followed by the smallest counter giving an
   unused name.
   */
  method ChooseUsername(taken: set<string>, correo: string) returns (username: string)
    ensures username !in taken
    ensures exists k: nat :: (username == Candidate(BeforeFirst(correo, '@'), k)
      && forall j: nat :: j < k ==> Candidate(BeforeFirst(correo, '@'), j) in taken)
  {
    var base := BeforeFirst(correo, '@');
    username := base;
    var counter := 1;
    ghost var tried: set<string> := {};
    while username in taken
      invariant counter >= 1 && username == Candidate(base, counter - 1)
      invariant forall j: nat :: j < counter - 1 ==> Candidate(base, j) in taken
      invariant tried <= taken && |tried| == counter - 1
      invariant forall s :: s in tried ==> exists j: nat :: j < counter - 1 && s == Candidate(base, j)
      decreases |taken| - |tried|
    {
      if username in tried {
        var j: nat :| j < counter - 1 && username == Candidate(base, j);
        CandidateInjective(base, j, counter - 1);
      }
      SubsetCardinality(tried + {username}, taken);
      tried := tried + {username};
      username := base + NatToString(counter);
      counter := counter + 1;
    }
  }

  lemma {:induction false} SubsetCardinality<T>(a: set<T>, b: set<T>)
    requires a <= b
    ensures |a| <= |b|
    decreases |a|
  {
    if a != {} {
      var x :| x in a;
      SubsetCardinality(a - {x}, b - {x});
    }
  }

  /**
   The student profile `create` makes: only truthy values are passed, and an
   omitted text field takes the model's empty default, so each text field
   ends up as the given text or empty.
   */
  function NewStudentProfile(id: nat, f: RegisterForm): (p: StudentProfile)
    requires f.fechaNacimiento.Some?
    ensures p.id == id && p.fechaNacimiento == f.fechaNacimiento.value
    ensures Filled(f.nivelEstudio) ==> p.nivelEstudio == f.nivelEstudio.value
    ensures Filled(f.genero) ==> p.genero == f.genero.value
    ensures Filled(f.estadoCivil) ==> p.estadoCivil == f.estadoCivil.value
    ensures Filled(f.parroquia) ==> p.parroquia == f.parroquia.value
    ensures Filled(f.origenIngresos) ==> p.origenIngresos == f.origenIngresos.value
    ensures !Filled(f.nivelEstudio) ==> p.nivelEstudio == ""
    ensures !Filled(f.genero) ==> p.genero == ""
    ensures !Filled(f.estadoCivil) ==> p.estadoCivil == ""
    ensures !Filled(f.parroquia) ==> p.parroquia == ""
    ensures !Filled(f.origenIngresos) ==> p.origenIngresos == ""
  {
    StudentProfile(id, f.nivelEstudio.GetOr(""), f.fechaNacimiento.value, f.genero.GetOr(""),
      f.estadoCivil.GetOr(""), f.parroquia.GetOr(""), f.origenIngresos.GetOr(""))
  }

  /**
   The teacher profile `create` makes, or `None` when `hire_date` was not
   given: the column has no default and the insert fails.
   */
  function NewTeacherProfile(id: nat, f: RegisterForm): (p: Option<TeacherProfile>)
    ensures p.Some? <==> f.hireDate.Some?
    ensures p.Some? ==> p.value.id == id && p.value.hireDate == f.hireDate.value
    ensures p.Some? ==> p.value.especialization == f.especialization.GetOr("")
  {
    if f.hireDate.None? then None
    else Some(TeacherProfile(id, f.especialization.GetOr(""), f.hireDate.value))
  }

  // ---------------------------------------------------------------------
  // PasswordResetConfirmSerializer and ChangePasswordSerializer

  datatype ResetConfirmForm = ResetConfirmForm(token: Uuid, newPassword: string, confirmPassword: string)

  function PasswordPairErrors(newPassword: string, confirmPassword: string): (errs: seq<FieldError>)
    ensures errs == [] <==> |newPassword| >= MinPasswordLength && |confirmPassword| >= MinPasswordLength
    ensures FieldError("new_password", TooShort) in errs <==> |newPassword| < MinPasswordLength
    ensures FieldError("confirm_password", TooShort) in errs <==> |confirmPassword| < MinPasswordLength
  {
    (if |newPassword| < MinPasswordLength then [FieldError("new_password", TooShort)] else [])
    + (if |confirmPassword| < MinPasswordLength then [FieldError("confirm_password", TooShort)] else [])
  }

  /**
   `PasswordResetConfirmSerializer`: both passwords at least 6 long, equal,
   and the token known and still valid; the token record on success.
   */
  function ResetConfirmCheck(tokens: map<Uuid, ResetToken>, f: ResetConfirmForm, now: Time): (r: Result<ResetToken>)
    ensures r.Ok? <==> (|f.newPassword| >= MinPasswordLength && |f.confirmPassword| >= MinPasswordLength
      && f.newPassword == f.confirmPassword && f.token in tokens && IsValid(tokens[f.token], now))
    ensures r.Ok? ==> r.value == tokens[f.token]
    ensures PasswordPairErrors(f.newPassword, f.confirmPassword) != [] ==>
      r == Err(FieldErrors(PasswordPairErrors(f.newPassword, f.confirmPassword)))
    ensures PasswordPairErrors(f.newPassword, f.confirmPassword) == [] && f.newPassword != f.confirmPassword ==>
      r == Invalid(PasswordsDiffer)
    ensures PasswordPairErrors(f.newPassword, f.confirmPassword) == [] && f.newPassword == f.confirmPassword ==>
      (f.token !in tokens ==> r == Invalid(UnknownToken))
      && (f.token in tokens && !IsValid(tokens[f.token], now) ==> r == Invalid(SpentToken))
  {
    var errs := PasswordPairErrors(f.newPassword, f.confirmPassword);
    if errs != [] then Err(FieldErrors(errs))
    else if f.newPassword != f.confirmPassword then Invalid(PasswordsDiffer)
    else if f.token !in tokens then Invalid(UnknownToken)
    else if !IsValid(tokens[f.token], now) then Invalid(SpentToken)
    else Ok(tokens[f.token])
  }

  datatype ChangePasswordForm = ChangePasswordForm(currentPassword: string, newPassword: string, confirmPassword: string)

  /**
   `ChangePasswordSerializer` for the signed-in user: the current password
   must match, both new ones be at least 6 long and equal; the new password
   on success.
   */
  function ChangePasswordCheck(user: User, f: ChangePasswordForm): (r: Result<string>)
    ensures r.Ok? <==> (CheckPassword(f.currentPassword, user.password)
      && |f.newPassword| >= MinPasswordLength && |f.confirmPassword| >= MinPasswordLength
      && f.newPassword == f.confirmPassword)
    ensures r.Ok? ==> r.value == f.newPassword
    ensures !CheckPassword(f.currentPassword, user.password) ==>
      r == Err(FieldErrors([FieldError("current_password", WrongCurrentPassword)] + PasswordPairErrors(f.newPassword, f.confirmPassword)))
  {
    var errs := (if !CheckPassword(f.currentPassword, user.password)
                 then [FieldError("current_password", WrongCurrentPassword)] else [])
                + PasswordPairErrors(f.newPassword, f.confirmPassword);
    if errs != [] then Err(FieldErrors(errs))
    else if f.newPassword != f.confirmPassword then Invalid(PasswordsDiffer)
    else Ok(f.newPassword)
  }
}
