/** The site's user record and its manager: the guards of `create_user`,
    the flag defaulting of `create_superuser`, the permission shortcuts and
    the profile choice lists with their defaults. */
module Users {
  import opened Wrappers

  datatype Result<T, E> = Ok(value: T) | Err(error: E)

  /** A Python value passed as a keyword argument. */
  datatype PyValue = PBool(b: bool) | PInt(n: int) | PStr(s: string) | PNone

  /** The failures `create_user` and `create_superuser` raise, in the order
      they are checked. */
  datatype UserError = MissingUsername | MissingEmail | MissingNickname | NotStaff | NotSuperuser

  /** A user record. `password` is what `set_password` was handed (`None`
      leaves the account without a usable password); `attrs` holds every
      other attribute by field name. */
  datatype User = User(
    username: string,
    email: string,
    nickname: string,
    password: Option<string>,
    attrs: map<string, PyValue>)

  // ---------------------------------------------------------------------
  // Choice lists and field defaults

  const InterestChoices: seq<(string, string)> := [
    ("PM", "기획"), ("DESIGN", "디자인"), ("FRONTEND", "프론트엔드"), ("BACKEND", "백엔드"),
    ("AI_ML", "AI/머신러닝"), ("EMBEDDED", "임베디드 SW"), ("QA", "QA/테스팅"),
    ("NETWORK", "네트워크/보안"), ("ETC", "기타")]

  const AffiliationChoices: seq<(string, string)> := [
    ("STUDENT_CS", "대학생(전공)"), ("STUDENT_NON_CS", "대학생(비전공)"), ("GRADUATE", "졸업생"),
    ("WORKER", "직장인"), ("NON_MAJOR", "비전공자")]

  const LevelChoices: seq<(string, string)> :=
    [("NOVICE", "초심자"), ("INTERMEDIATE", "중급자"), ("ADVANCED", "고급자")]

  /** Whether `code` is declared in a choice list. */
  predicate Declared(choices: seq<(string, string)>, code: string)
  {
    exists i :: 0 <= i < |choices| && choices[i].0 == code
  }

  /** The attributes a new user has when no keyword argument overrides them. */
  function Defaults(): (d: map<string, PyValue>)
    ensures "is_active" in d && d["is_active"] == PBool(true)
    ensures "is_staff" in d && d["is_staff"] == PBool(false)
    ensures "is_superuser" in d && d["is_superuser"] == PBool(false)
    ensures "interest_field" in d && d["interest_field"] == PStr("FRONTEND")
    ensures "affiliation" in d && d["affiliation"] == PStr("STUDENT_CS")
    ensures "dev_level" in d && d["dev_level"] == PStr("NOVICE")
  {
    map["interest_field" := PStr("FRONTEND"), "affiliation" := PStr("STUDENT_CS"),
        "dev_level" := PStr("NOVICE"), "is_active" := PBool(true),
        "is_staff" := PBool(false), "is_superuser" := PBool(false)]
  }

  /** The default interest, affiliation and level are declared choices. */
  lemma DefaultsDeclared()
    ensures Declared(InterestChoices, Defaults()["interest_field"].s)
    ensures Declared(AffiliationChoices, Defaults()["affiliation"].s)
    ensures Declared(LevelChoices, Defaults()["dev_level"].s)
  {
    assert InterestChoices[2].0 == "FRONTEND";
    assert AffiliationChoices[0].0 == "STUDENT_CS";
    assert LevelChoices[0].0 == "NOVICE";
  }

  // ---------------------------------------------------------------------
  // create_user / create_superuser

  /** `create_user`: username, email and nickname are required, checked in
      that order; the email goes through the manager's `normalize_email`
      (`normalize`) and every extra keyword argument overrides a default. */
  function CreateUser(normalize: string -> string, username: string, email: string, nickname: string,
                      password: Option<string>, extraFields: map<string, PyValue>): (r: Result<User, UserError>)
  {
    if username == "" then Err(MissingUsername)
    else if email == "" then Err(MissingEmail)
    else if nickname == "" then Err(MissingNickname)
    else Ok(User(username, normalize(email), nickname, password, Defaults() + extraFields))
  }

  /** The guards of `create_user`: it fails exactly when a required
      argument is empty, naming the first empty one; otherwise the user
      carries the arguments, the normalised email and the extras over the
      defaults. */
  lemma CreateUserOutcome(normalize: string -> string, username: string, email: string, nickname: string,
                          password: Option<string>, extraFields: map<string, PyValue>)
    ensures var r := CreateUser(normalize, username, email, nickname, password, extraFields);
            (r.Err? <==> username == "" || email == "" || nickname == "")
            && (username == "" ==> r == Err(MissingUsername))
            && (username != "" && email == "" ==> r == Err(MissingEmail))
            && (username != "" && email != "" && nickname == "" ==> r == Err(MissingNickname))
            && (r.Ok? ==> r.value.username == username && r.value.email == normalize(email)
                          && r.value.nickname == nickname && r.value.password == password
                          && (forall k :: k in extraFields ==> k in r.value.attrs && r.value.attrs[k] == extraFields[k])
                          && (forall k :: k in Defaults() && k !in extraFields ==> k in r.value.attrs && r.value.attrs[k] == Defaults()[k]))
  {
  }

  /** `dict.setdefault(key, value)`, for the dictionary it leaves behind. */
  function SetDefault(m: map<string, PyValue>, key: string, value: PyValue): (r: map<string, PyValue>)
    ensures key in r
    ensures key in m ==> r == m
    ensures key !in m ==> r[key] == value && forall k :: k in m ==> k in r && r[k] == m[k]
  {
    if key in m then m else m[key := value]
  }

  /** The keyword arguments `create_superuser` hands on: each of the three
      flags defaults to True unless given. */
  function SuperuserFields(extraFields: map<string, PyValue>): map<string, PyValue>
  {
    SetDefault(SetDefault(SetDefault(extraFields, "is_staff", PBool(true)),
               "is_superuser", PBool(true)), "is_active", PBool(true))
  }

  /** The flags after defaulting: given values stay, missing ones are True. */
  lemma SuperuserFieldsFlags(extraFields: map<string, PyValue>, flag: string)
    requires flag == "is_staff" || flag == "is_superuser" || flag == "is_active"
    ensures flag in SuperuserFields(extraFields)
    ensures SuperuserFields(extraFields)[flag] ==
              if flag in extraFields then extraFields[flag] else PBool(true)
  {
  }

  /** `create_superuser`: fills in the flags with `setdefault`, rejects a
      staff flag that is not the value True, then a superuser flag that is
      not True, and otherwise creates the user with the flags. */
  method CreateSuperuser(normalize: string -> string, username: string, email: string, nickname: string,
                         password: Option<string>, extraFields: map<string, PyValue>)
    returns (result: Result<User, UserError>)
    ensures var fields := SuperuserFields(extraFields);
            (fields["is_staff"] != PBool(true) ==> result == Err(NotStaff))
            && (fields["is_staff"] == PBool(true) && fields["is_superuser"] != PBool(true) ==>
                  result == Err(NotSuperuser))
            && (fields["is_staff"] == PBool(true) && fields["is_superuser"] == PBool(true) ==>
                  result == CreateUser(normalize, username, email, nickname, password, fields))
  {
    var fields := extraFields;
    fields := SetDefault(fields, "is_staff", PBool(true));
    fields := SetDefault(fields, "is_superuser", PBool(true));
    fields := SetDefault(fields, "is_active", PBool(true));
    var isStaff := if "is_staff" in fields then fields["is_staff"] else PNone;
    if isStaff != PBool(true) {
      return Err(NotStaff);
    }
    var isSuperuser := if "is_superuser" in fields then fields["is_superuser"] else PNone;
    if isSuperuser != PBool(true) {
      return Err(NotSuperuser);
    }
    result := CreateUser(normalize, username, email, nickname, password, fields);
  }

  /** With no flag given, a superuser is created staff, superuser and active
      (when the required arguments are present). */
  lemma SuperuserByDefault(normalize: string -> string, username: string, email: string, nickname: string,
                           password: Option<string>)
    requires username != "" && email != "" && nickname != ""
    ensures var r := CreateUser(normalize, username, email, nickname, password, SuperuserFields(map[]));
            r.Ok? && r.value.attrs["is_staff"] == PBool(true)
            && r.value.attrs["is_superuser"] == PBool(true) && r.value.attrs["is_active"] == PBool(true)
  {
    var f := SuperuserFields(map[]);
    SuperuserFieldsFlags(map[], "is_staff");
    SuperuserFieldsFlags(map[], "is_superuser");
    SuperuserFieldsFlags(map[], "is_active");
    CreateUserOutcome(normalize, username, email, nickname, password, f);
  }

  /** `is_active=False` is not checked: such a superuser is created inactive. */
  lemma InactiveSuperuserAccepted(normalize: string -> string, username: string, email: string, nickname: string,
                                  password: Option<string>)
    requires username != "" && email != "" && nickname != ""
    ensures var fields := SuperuserFields(map["is_active" := PBool(false)]);
            fields["is_staff"] == PBool(true) && fields["is_superuser"] == PBool(true)
            && var r := CreateUser(normalize, username, email, nickname, password, fields);
               r.Ok? && r.value.attrs["is_active"] == PBool(false)
  {
    var extra := map["is_active" := PBool(false)];
    SuperuserFieldsFlags(extra, "is_staff");
    SuperuserFieldsFlags(extra, "is_superuser");
    SuperuserFieldsFlags(extra, "is_active");
    CreateUserOutcome(normalize, username, email, nickname, password, SuperuserFields(extra));
  }

  /** The check is by identity with True: a truthy value such as 1 is
      refused, and the staff flag is looked at before the superuser flag. */
  lemma FlagsMustBeTrue(extraFields: map<string, PyValue>)
    requires "is_staff" in extraFields && extraFields["is_staff"] == PInt(1)
    ensures SuperuserFields(extraFields)["is_staff"] != PBool(true)
  {
    SuperuserFieldsFlags(extraFields, "is_staff");
  }

  // ---------------------------------------------------------------------
  // User methods

  /** `__str__`. */
  function Str(u: User): string
  {
    u.nickname
  }

  /** `is_superuser`, falling back to the mixin's default False. */
  function IsSuperuser(u: User): PyValue
  {
    if "is_superuser" in u.attrs then u.attrs["is_superuser"] else PBool(false)
  }

  /** `has_perm(perm, obj)`: the superuser flag, whatever is asked. */
  function HasPerm(u: User, perm: string, obj: Option<nat>): PyValue
  {
    IsSuperuser(u)
  }

  /** `has_module_perms(app_label)`: the superuser flag, whatever is asked. */
  function HasModulePerms(u: User, appLabel: string): PyValue
  {
    IsSuperuser(u)
  }

  /** The permission answers do not depend on the question, and a created
      user is shown by its nickname. */
  lemma PermissionsIgnoreArguments(u: User, perm1: string, perm2: string, obj1: Option<nat>,
                                   obj2: Option<nat>, app: string)
    ensures HasPerm(u, perm1, obj1) == HasPerm(u, perm2, obj2) == HasModulePerms(u, app)
  {
  }

  /** A user from `create_superuser` with default flags has every
      permission; one from `create_user` without extras has none. */
  lemma CreatedPermissions(normalize: string -> string, username: string, email: string, nickname: string,
                           password: Option<string>, perm: string, app: string)
    requires username != "" && email != "" && nickname != ""
    ensures var su := CreateUser(normalize, username, email, nickname, password, SuperuserFields(map[]));
            su.Ok? && HasPerm(su.value, perm, None) == PBool(true)
            && HasModulePerms(su.value, app) == PBool(true) && Str(su.value) == nickname
    ensures var u := CreateUser(normalize, username, email, nickname, password, map[]);
            u.Ok? && HasPerm(u.value, perm, None) == PBool(false) && Str(u.value) == nickname
  {
    SuperuserByDefault(normalize, username, email, nickname, password);
    CreateUserOutcome(normalize, username, email, nickname, password, map[]);
  }
}
