/** Local users: the last-admin guard and case-insensitive usernames. */
module Users {
  import opened Common

  type Uuid = nat

  datatype Role = Admin | Member

  datatype RoleText = NoRole | Role(role: Role) | UnknownRole

  /** An email text after trimming and mail.ParseAddress. */
  datatype EmailText = NoEmail | Email(address: string) | BadEmail

  datatype User = User(
    username: string, passwordHash: string, displayName: string, email: string, role: Role, enabled: bool)

  type UserTable = map<Uuid, User>

  datatype UserError =
    | InvalidUsername
    | InvalidPassword
    | InvalidRole
    | InvalidEmail
    | UsernameTaken
    | UserNotFound
    | LastAdmin
    | WrongPassword
    | BootstrapUnavailable
    | BootstrapForbidden
    | IndexClash   // the unique index on usernames refused the write
    | Failure

  /** A new password, and the hash bcrypt makes of it, if it makes one. */
  datatype Password = Password(text: string, hash: Option<string>)

  datatype CreateInput = CreateInput(
    username: string, password: Password, displayName: string, email: EmailText, role: RoleText,
    enabled: Option<bool>)

  datatype UpdateInput = UpdateInput(
    username: Option<string>, displayName: Option<string>, email: Option<EmailText>,
    role: Option<RoleText>, enabled: Option<bool>, password: Option<Password>)

  /** Character tables: unicode.IsLetter or IsDigit, unicode.ToLower, the lower() of the database,
      and strings.EqualFold on usernames. */
  datatype Charset = Charset(
    alphanumeric: char -> bool, lower: char -> char, dbLower: char -> char, folds: (string, string) -> bool)
  {
    /** The database changes nothing in a name the service has lowered. */
    ghost predicate Agrees() {
      forall c :: dbLower(lower(c)) == lower(c)
    }
  }

  datatype Outcome<+T> = Outcome(users: UserTable, reply: Result<T, UserError>)

  // ---- text --------------------------------------------------------------------------

  function MapChars(f: char -> char, s: string): (r: string)
    ensures |r| == |s| && forall i :: 0 <= i < |s| ==> r[i] == f(s[i])
  {
    seq(|s|, i requires 0 <= i < |s| => f(s[i]))
  }

  /** Length in UTF-8 bytes, as len counts. */
  function ByteLength(s: string): nat {
    if s == "" then 0
    else
      var c := s[0] as int;
      (if c < 0x80 then 1 else if c < 0x800 then 2 else if c < 0x10000 then 3 else 4) + ByteLength(s[1..])
  }

  predicate NameChars(cs: Charset, s: string) {
    forall i :: 0 <= i < |s| ==> cs.alphanumeric(s[i]) || s[i] == '.' || s[i] == '_' || s[i] == '-'
  }

  function NormalizeUsername(cs: Charset, raw: string): Result<string, UserError> {
    var name := Trim(raw);
    if ByteLength(name) < 2 || ByteLength(name) > 64 || !NameChars(cs, name) then Err(InvalidUsername)
    else Ok(MapChars(cs.lower, name))
  }

  predicate PasswordFits(p: Password) {
    8 <= ByteLength(p.text) <= 200
  }

  // ---- the table ---------------------------------------------------------------------

  /** The value the unique index on usernames compares. */
  function Key(cs: Charset, name: string): string {
    MapChars(cs.dbLower, name)
  }

  predicate KeyTaken(cs: Charset, users: UserTable, name: string, self: Option<Uuid>) {
    exists u | u in users :: Some(u) != self && Key(cs, users[u].username) == Key(cs, name)
  }

  predicate IsEnabledAdmin(u: User) {
    u.enabled && u.role == Admin
  }

  function EnabledAdmins(users: UserTable): set<Uuid> {
    set u | u in users && IsEnabledAdmin(users[u])
  }

  ghost predicate SameKey(cs: Charset, users: UserTable, a: Uuid, b: Uuid) {
    a in users && b in users && a != b && Key(cs, users[a].username) == Key(cs, users[b].username)
  }

  /** The unique index: no two rows with one key. */
  ghost predicate KeysUnique(cs: Charset, users: UserTable) {
    forall a, b :: !SameKey(cs, users, a, b)
  }

  /** The name is in lower case already. */
  ghost predicate Lowered(cs: Charset, name: string) {
    exists raw: string :: name == MapChars(cs.lower, raw)
  }

  ghost predicate NamesLowered(cs: Charset, users: UserTable) {
    forall u :: u in users ==> Lowered(cs, users[u].username)
  }

  ghost predicate Tidy(cs: Charset, users: UserTable) {
    KeysUnique(cs, users) && NamesLowered(cs, users)
  }

  /** Usernames that the service stores are pairwise different, whatever their case was. */
  ghost predicate NamesDiffer(users: UserTable) {
    forall a, b :: a in users && b in users && users[a].username == users[b].username ==> a == b
  }

  lemma LoweredIsKey(cs: Charset, name: string)
    requires cs.Agrees() && Lowered(cs, name)
    ensures Key(cs, name) == name
  {
    var raw: string :| name == MapChars(cs.lower, raw);
  }

  // ---- the calls as functions --------------------------------------------------------

  /** The record a create is going to insert, its name having been looked up and found free. */
  function NewUser(cs: Charset, users: UserTable, input: CreateInput): Result<User, UserError> {
    match NormalizeUsername(cs, input.username)
    case Err(e) => Err(e)
    case Ok(name) =>
      if !PasswordFits(input.password) then Err(InvalidPassword)
      else if input.role.UnknownRole? then Err(InvalidRole)
      else if input.email.BadEmail? then Err(InvalidEmail)
      else if KeyTaken(cs, users, name, None) then Err(UsernameTaken)
      else if input.password.hash.None? then Err(Failure)
      else Ok(User(
        name, input.password.hash.value, Trim(input.displayName),
        if input.email.Email? then input.email.address else "",
        if input.role.Role? then input.role.role else Member,
        if input.enabled.Some? then input.enabled.value else true))
  }

  /** The insert, with its unique columns. */
  function InsertUser(cs: Charset, users: UserTable, id: Uuid, user: User): Outcome<User> {
    if id in users then Outcome(users, Err(Failure))
    else if KeyTaken(cs, users, user.username, None) then Outcome(users, Err(IndexClash))
    else Outcome(users[id := user], Ok(user))
  }

  function CreateUser(cs: Charset, users: UserTable, input: CreateInput, id: Uuid): Outcome<User> {
    match NewUser(cs, users, input)
    case Err(e) => Outcome(users, Err(e))
    case Ok(user) => InsertUser(cs, users, id, user)
  }

  /** The username after an update of the record as read: checked against the table unless it folds
      to the old one. */
  function NewName(cs: Charset, users: UserTable, id: Uuid, seen: User, raw: string): Result<string, UserError> {
    match NormalizeUsername(cs, raw)
    case Err(e) => Err(e)
    case Ok(name) =>
      if !cs.folds(name, seen.username) && KeyTaken(cs, users, name, Some(id)) then Err(UsernameTaken)
      else Ok(name)
  }

  /** The record as read, with the requested changes. */
  function Edited(cs: Charset, users: UserTable, id: Uuid, seen: User, input: UpdateInput): Result<User, UserError> {
    var name := if input.username.Some? then NewName(cs, users, id, seen, input.username.value) else Ok(seen.username);
    if name.Err? then Err(name.error)
    else if input.email.Some? && input.email.value.BadEmail? then Err(InvalidEmail)
    else if input.role.Some? && !input.role.value.Role? then Err(InvalidRole)
    else if input.password.Some? && !PasswordFits(input.password.value) then Err(InvalidPassword)
    else if input.password.Some? && input.password.value.hash.None? then Err(Failure)
    else Ok(User(
      name.value,
      if input.password.Some? then input.password.value.hash.value else seen.passwordHash,
      if input.displayName.Some? then Trim(input.displayName.value) else seen.displayName,
      if input.email.None? then seen.email
      else if input.email.value.Email? then input.email.value.address else "",
      if input.role.Some? then input.role.value.role else seen.role,
      if input.enabled.Some? then input.enabled.value else seen.enabled))
  }

  /** The record with a new password, unless something refuses it. */
  function WithPassword(seen: User, matches: bool, fresher: Password): Result<User, UserError> {
    if !matches then Err(WrongPassword)
    else if !PasswordFits(fresher) then Err(InvalidPassword)
    else if fresher.hash.None? then Err(Failure)
    else Ok(seen.(passwordHash := fresher.hash.value))
  }

  /** The full-row write of a record. */
  function SaveUser(cs: Charset, users: UserTable, id: Uuid, user: User): Outcome<User> {
    if id !in users then Outcome(users, Err(UserNotFound))
    else if KeyTaken(cs, users, user.username, Some(id)) then Outcome(users, Err(IndexClash))
    else Outcome(users[id := user], Ok(user))
  }

  function UpdateUser(cs: Charset, users: UserTable, id: Uuid, input: UpdateInput): Outcome<User> {
    if id !in users then Outcome(users, Err(UserNotFound))
    else match Edited(cs, users, id, users[id], input)
      case Err(e) => Outcome(users, Err(e))
      case Ok(user) =>
        if IsEnabledAdmin(users[id]) && !IsEnabledAdmin(user) && |EnabledAdmins(users)| <= 1
        then Outcome(users, Err(LastAdmin))
        else SaveUser(cs, users, id, user)
  }

  function DeleteUser(users: UserTable, id: Uuid): Outcome<()> {
    if id !in users then Outcome(users, Err(UserNotFound))
    else if IsEnabledAdmin(users[id]) && |EnabledAdmins(users)| <= 1 then Outcome(users, Err(LastAdmin))
    else Outcome(users - {id}, Ok(()))
  }

  /** matches tells whether the current password given is the right one. */
  function ChangePassword(cs: Charset, users: UserTable, id: Uuid, matches: bool, fresher: Password): Outcome<User> {
    if id !in users then Outcome(users, Err(UserNotFound))
    else match WithPassword(users[id], matches, fresher)
      case Err(e) => Outcome(users, Err(e))
      case Ok(user) => SaveUser(cs, users, id, user)
  }

  /** The first user of an empty table becomes an admin. */
  function Bootstrap(cs: Charset, users: UserTable, input: CreateInput, tokenFits: bool, id: Uuid): Outcome<User> {
    if |users| > 0 then Outcome(users, Err(BootstrapUnavailable))
    else if !tokenFits then Outcome(users, Err(BootstrapForbidden))
    else CreateUser(cs, users, input.(role := Role(Admin), enabled := None), id)
  }

  // ---- the calls on a store ----------------------------------------------------------

  /** The count the guard compares, in terms of who would remain. */
  lemma GuardMeans(users: UserTable)
    ensures |EnabledAdmins(users)| > 1 <==> forall id :: EnabledAdmins(users) - {id} != {}
  {
    var admins := EnabledAdmins(users);
    forall id
      ensures |admins| > 1 ==> admins - {id} != {}
    {
      if |admins| > 1 {
        assert !(admins <= {id}) by {
          if admins <= {id} {
            CardSubset(admins, {id});
          }
        }
      }
    }
    if admins == {} {
      assert admins - {0} == {};
    } else if |admins| == 1 {
      var a :| a in admins;
      assert |admins - {a}| == 0;
    }
  }

  class UserService {
    var users: UserTable
    const cs: Charset

    constructor (cs: Charset)
      ensures this.cs == cs && users == map[]
    {
      this.cs, users := cs, map[];
    }

    /** Lets the caller go on exactly when an enabled admin remains whichever one user goes. */
    method EnsureNotLastAdmin() returns (err: Option<UserError>)
      ensures err == None <==> forall id :: EnabledAdmins(users) - {id} != {}
      ensures err.Some? ==> err.value == LastAdmin
    {
      var n := |EnabledAdmins(users)|;
      GuardMeans(users);
      if n <= 1 {
        return Some(LastAdmin);
      }
      return None;
    }

    method Save(id: Uuid, user: User) returns (r: Result<User, UserError>)
      modifies this`users
      ensures Outcome(users, r) == SaveUser(cs, old(users), id, user)
    {
      if id !in users {
        return Err(UserNotFound);
      }
      if KeyTaken(cs, users, user.username, Some(id)) {
        return Err(IndexClash);
      }
      users := users[id := user];
      return Ok(user);
    }

    method Create(input: CreateInput, id: Uuid) returns (r: Result<User, UserError>)
      modifies this`users
      ensures Outcome(users, r) == CreateUser(cs, old(users), input, id)
    {
      var name := NormalizeUsername(cs, input.username);
      if name.Err? {
        return Err(name.error);
      }
      if !PasswordFits(input.password) {
        return Err(InvalidPassword);
      }
      var role := Member;
      match input.role {
        case NoRole =>
        case Role(given) => role := given;
        case UnknownRole => return Err(InvalidRole);
      }
      var email := "";
      match input.email {
        case NoEmail =>
        case Email(address) => email := address;
        case BadEmail => return Err(InvalidEmail);
      }
      if KeyTaken(cs, users, name.value, None) {
        return Err(UsernameTaken);
      }
      if input.password.hash.None? {
        return Err(Failure);
      }
      var enabled := true;
      if input.enabled.Some? {
        enabled := input.enabled.value;
      }
      var user := User(name.value, input.password.hash.value, Trim(input.displayName), email, role, enabled);
      r := Add(id, user);
    }

    method Add(id: Uuid, user: User) returns (r: Result<User, UserError>)
      modifies this`users
      ensures Outcome(users, r) == InsertUser(cs, old(users), id, user)
    {
      if id in users {
        return Err(Failure);
      }
      if KeyTaken(cs, users, user.username, None) {
        return Err(IndexClash);
      }
      users := users[id := user];
      return Ok(user);
    }

    method Rename(id: Uuid, seen: User, raw: string) returns (r: Result<string, UserError>)
      ensures r == NewName(cs, users, id, seen, raw)
    {
      var name := NormalizeUsername(cs, raw);
      if name.Err? {
        return Err(name.error);
      }
      if !cs.folds(name.value, seen.username) {
        if KeyTaken(cs, users, name.value, Some(id)) {
          return Err(UsernameTaken);
        }
      }
      return Ok(name.value);
    }

    /** The record as fetched, changed field by field. */
    method Amend(id: Uuid, seen: User, input: UpdateInput) returns (r: Result<User, UserError>)
      ensures r == Edited(cs, users, id, seen, input)
    {
      var user := seen;
      if input.username.Some? {
        var name := Rename(id, seen, input.username.value);
        if name.Err? {
          return Err(name.error);
        }
        user := user.(username := name.value);
      }
      if input.displayName.Some? {
        user := user.(displayName := Trim(input.displayName.value));
      }
      if input.email.Some? {
        match input.email.value {
          case NoEmail => user := user.(email := "");
          case Email(address) => user := user.(email := address);
          case BadEmail => return Err(InvalidEmail);
        }
      }
      if input.role.Some? {
        match input.role.value {
          case Role(role) => user := user.(role := role);
          case _ => return Err(InvalidRole);
        }
      }
      if input.enabled.Some? {
        user := user.(enabled := input.enabled.value);
      }
      if input.password.Some? {
        if !PasswordFits(input.password.value) {
          return Err(InvalidPassword);
        }
        if input.password.value.hash.None? {
          return Err(Failure);
        }
        user := user.(passwordHash := input.password.value.hash.value);
      }
      return Ok(user);
    }

    method Update(id: Uuid, input: UpdateInput) returns (r: Result<User, UserError>)
      modifies this`users
      ensures Outcome(users, r) == UpdateUser(cs, old(users), id, input)
    {
      if id !in users {
        return Err(UserNotFound);
      }
      var wasEnabledAdmin := users[id].enabled && users[id].role == Admin;
      GuardMeans(users);
      var edited := Amend(id, users[id], input);
      if edited.Err? {
        return Err(edited.error);
      }
      var user := edited.value;
      var stillEnabledAdmin := user.enabled && user.role == Admin;
      if wasEnabledAdmin && !stillEnabledAdmin {
        var err := EnsureNotLastAdmin();
        if err.Some? {
          return Err(err.value);
        }
      }
      r := Save(id, user);
    }

    method Delete(id: Uuid) returns (r: Result<(), UserError>)
      modifies this`users
      ensures Outcome(users, r) == DeleteUser(old(users), id)
    {
      if id !in users {
        return Err(UserNotFound);
      }
      GuardMeans(users);
      if users[id].enabled && users[id].role == Admin {
        var err := EnsureNotLastAdmin();
        if err.Some? {
          return Err(err.value);
        }
      }
      users := users - {id};
      return Ok(());
    }

    method ChangeOwnPassword(id: Uuid, matches: bool, fresher: Password) returns (r: Result<User, UserError>)
      modifies this`users
      ensures Outcome(users, r) == ChangePassword(cs, old(users), id, matches, fresher)
    {
      if id !in users {
        return Err(UserNotFound);
      }
      var user := users[id];
      if !matches {
        return Err(WrongPassword);
      }
      if !PasswordFits(fresher) {
        return Err(InvalidPassword);
      }
      if fresher.hash.None? {
        return Err(Failure);
      }
      user := user.(passwordHash := fresher.hash.value);
      r := Save(id, user);
    }
  }

  // ---- what every call keeps ---------------------------------------------------------

  datatype Call =
    | CallBootstrap(input: CreateInput, tokenFits: bool, id: Uuid)
    | CallCreate(input: CreateInput, id: Uuid)
    | CallUpdate(id: Uuid, change: UpdateInput)
    | CallDelete(id: Uuid)
    | CallPassword(id: Uuid, matches: bool, password: Password)

  function Apply(cs: Charset, users: UserTable, call: Call): UserTable {
    match call
    case CallBootstrap(input, tokenFits, id) => Bootstrap(cs, users, input, tokenFits, id).users
    case CallCreate(input, id) => CreateUser(cs, users, input, id).users
    case CallUpdate(id, change) => UpdateUser(cs, users, id, change).users
    case CallDelete(id) => DeleteUser(users, id).users
    case CallPassword(id, matches, password) => ChangePassword(cs, users, id, matches, password).users
  }

  function Run(cs: Charset, users: UserTable, calls: seq<Call>): UserTable
    decreases |calls|
  {
    if calls == [] then users else Apply(cs, Run(cs, users, calls[..|calls| - 1]), calls[|calls| - 1])
  }

  /** Writing a lowered name whose key no other row has. */
  lemma PutKeepsTidy(cs: Charset, users: UserTable, id: Uuid, user: User)
    requires Tidy(cs, users) && Lowered(cs, user.username)
    requires !KeyTaken(cs, users, user.username, Some(id))
    ensures Tidy(cs, users[id := user])
  {
    var after := users[id := user];
    forall a, b
      ensures !SameKey(cs, after, a, b)
    {
      assert !SameKey(cs, users, a, b);
    }
  }

  lemma NormalizedIsLowered(cs: Charset, raw: string)
    ensures NormalizeUsername(cs, raw).Ok? ==> Lowered(cs, NormalizeUsername(cs, raw).value)
  {
  }

  lemma CreateKeepsTidy(cs: Charset, users: UserTable, input: CreateInput, id: Uuid)
    requires Tidy(cs, users)
    ensures Tidy(cs, CreateUser(cs, users, input, id).users)
  {
    NormalizedIsLowered(cs, input.username);
    var out := CreateUser(cs, users, input, id);
    if out.reply.Ok? {
      assert !KeyTaken(cs, users, out.reply.value.username, None);
      PutKeepsTidy(cs, users, id, out.reply.value);
    }
  }

  lemma UpdateKeepsTidy(cs: Charset, users: UserTable, id: Uuid, change: UpdateInput)
    requires Tidy(cs, users)
    ensures Tidy(cs, UpdateUser(cs, users, id, change).users)
  {
    if change.username.Some? {
      NormalizedIsLowered(cs, change.username.value);
    }
    var out := UpdateUser(cs, users, id, change);
    if out.reply.Ok? {
      PutKeepsTidy(cs, users, id, out.reply.value);
    }
  }

  lemma PasswordKeepsTidy(cs: Charset, users: UserTable, id: Uuid, matches: bool, password: Password)
    requires Tidy(cs, users)
    ensures Tidy(cs, ChangePassword(cs, users, id, matches, password).users)
  {
    var out := ChangePassword(cs, users, id, matches, password);
    if out.reply.Ok? {
      PutKeepsTidy(cs, users, id, out.reply.value);
    }
  }

  lemma ApplyKeepsTidy(cs: Charset, users: UserTable, call: Call)
    requires Tidy(cs, users)
    ensures Tidy(cs, Apply(cs, users, call))
  {
    match call {
      case CallBootstrap(input, tokenFits, id) =>
        CreateKeepsTidy(cs, users, input.(role := Role(Admin), enabled := None), id);
      case CallCreate(input, id) => CreateKeepsTidy(cs, users, input, id);
      case CallUpdate(id, change) => UpdateKeepsTidy(cs, users, id, change);
      case CallDelete(id) =>
        var after := users - {id};
        forall a, b
          ensures !SameKey(cs, after, a, b)
        {
          assert !SameKey(cs, users, a, b);
        }
      case CallPassword(id, matches, password) => PasswordKeepsTidy(cs, users, id, matches, password);
    }
  }

  /** A row may go, or stop being an enabled admin, when it is not one or when two are counted. */
  lemma AnotherAdmin(users: UserTable, id: Uuid)
    requires EnabledAdmins(users) != {}
    requires id in EnabledAdmins(users) ==> |EnabledAdmins(users)| > 1
    ensures EnabledAdmins(users) - {id} != {}
  {
    var admins := EnabledAdmins(users);
    if id in admins {
      assert |admins - {id}| == |admins| - 1;
    } else {
      assert admins - {id} == admins;
    }
  }

  lemma ApplyKeepsAdmin(cs: Charset, users: UserTable, call: Call)
    requires EnabledAdmins(users) != {}
    ensures EnabledAdmins(Apply(cs, users, call)) != {}
  {
    var after := Apply(cs, users, call);
    if after != users {
      var id := call.id;
      if call.CallPassword? || call.CallCreate? || call.CallBootstrap? {
        assert EnabledAdmins(users) <= EnabledAdmins(after);
      } else if call.CallUpdate? && IsEnabledAdmin(after[id]) {
        assert id in EnabledAdmins(after);
      } else {
        AnotherAdmin(users, id);
        assert EnabledAdmins(users) - {id} <= EnabledAdmins(after);
      }
    }
  }

  /** From a table with an enabled admin, every run of calls keeps one; from a tidy table every run
      keeps stored usernames pairwise different. */
  lemma {:induction false} RunKeeps(cs: Charset, users: UserTable, calls: seq<Call>)
    requires Tidy(cs, users)
    ensures EnabledAdmins(users) != {} ==> EnabledAdmins(Run(cs, users, calls)) != {}
    ensures Tidy(cs, Run(cs, users, calls)) && NamesDiffer(Run(cs, users, calls))
    decreases |calls|
  {
    if calls != [] {
      var before := Run(cs, users, calls[..|calls| - 1]);
      RunKeeps(cs, users, calls[..|calls| - 1]);
      ApplyKeepsTidy(cs, before, calls[|calls| - 1]);
      if EnabledAdmins(users) != {} {
        ApplyKeepsAdmin(cs, before, calls[|calls| - 1]);
      }
    }
    TidyNamesDiffer(cs, Run(cs, users, calls));
  }

  lemma TidyNamesDiffer(cs: Charset, users: UserTable)
    requires Tidy(cs, users)
    ensures NamesDiffer(users)
  {
    forall a, b | a in users && b in users && users[a].username == users[b].username
      ensures a == b
    {
      assert !SameKey(cs, users, a, b);
    }
  }

  /** The login looks up the trimmed text as it is given: the database compares it after its own
      lower(). */
  predicate FoundByLogin(cs: Charset, users: UserTable, raw: string, u: Uuid) {
    u in users && Key(cs, users[u].username) == Key(cs, Trim(raw))
  }

  /** In every reachable table a login text finds at most one user: the one whose stored name is what
      lower() makes of the text.  So the text a user was created with finds that user if and only if
      lower() of the database and strings.ToLower agree on it. */
  lemma LoginFinds(cs: Charset, calls: seq<Call>, raw: string)
    requires cs.Agrees()
    ensures var users := Run(cs, map[], calls);
            (forall u :: FoundByLogin(cs, users, raw, u) <==> u in users && users[u].username == Key(cs, Trim(raw)))
            && (forall a, b :: FoundByLogin(cs, users, raw, a) && FoundByLogin(cs, users, raw, b) ==> a == b)
            && (NormalizeUsername(cs, raw).Ok? ==>
                  forall u :: u in users && users[u].username == NormalizeUsername(cs, raw).value ==>
                    (FoundByLogin(cs, users, raw, u) <==> Key(cs, Trim(raw)) == MapChars(cs.lower, Trim(raw))))
  {
    var users := Run(cs, map[], calls);
    RunKeeps(cs, map[], calls);
    forall u | u in users
      ensures Key(cs, users[u].username) == users[u].username
    {
      LoweredIsKey(cs, users[u].username);
    }
    forall a, b | FoundByLogin(cs, users, raw, a) && FoundByLogin(cs, users, raw, b)
      ensures a == b
    {
      assert !SameKey(cs, users, a, b);
    }
  }

  // ---- the bare failure of the index -------------------------------------------------

  function Fault(cs: Charset, users: UserTable, call: Call): Option<UserError> {
    match call
    case CallBootstrap(input, tokenFits, id) => ErrorOf(Bootstrap(cs, users, input, tokenFits, id).reply)
    case CallCreate(input, id) => ErrorOf(CreateUser(cs, users, input, id).reply)
    case CallUpdate(id, change) => ErrorOf(UpdateUser(cs, users, id, change).reply)
    case CallDelete(id) => ErrorOf(DeleteUser(users, id).reply)
    case CallPassword(id, matches, password) => ErrorOf(ChangePassword(cs, users, id, matches, password).reply)
  }

  function ErrorOf<T>(r: Result<T, UserError>): Option<UserError> {
    match r
    case Ok(_) => None
    case Err(e) => Some(e)
  }

  /** Among the names of a kind, the fold equates only names with one key. */
  ghost predicate ExactOn(cs: Charset, kind: string -> bool) {
    forall x, y :: kind(x) && kind(y) && cs.folds(x, y) ==> Key(cs, x) == Key(cs, y)
  }

  /** The text is refused as a username, or is one of the kind once normalised. */
  predicate NameIsOf(cs: Charset, kind: string -> bool, raw: string) {
    NormalizeUsername(cs, raw).Ok? ==> kind(NormalizeUsername(cs, raw).value)
  }

  predicate CallIsOf(cs: Charset, kind: string -> bool, call: Call) {
    match call
    case CallBootstrap(input, _, _) => NameIsOf(cs, kind, input.username)
    case CallCreate(input, _) => NameIsOf(cs, kind, input.username)
    case CallUpdate(_, change) => change.username.Some? ==> NameIsOf(cs, kind, change.username.value)
    case _ => true
  }

  predicate TableIsOf(kind: string -> bool, users: UserTable) {
    forall u :: u in users ==> kind(users[u].username)
  }

  lemma {:induction false} RunStaysOf(cs: Charset, kind: string -> bool, calls: seq<Call>)
    requires forall i :: 0 <= i < |calls| ==> CallIsOf(cs, kind, calls[i])
    ensures TableIsOf(kind, Run(cs, map[], calls))
    decreases |calls|
  {
    if calls != [] {
      var init, last := calls[..|calls| - 1], calls[|calls| - 1];
      RunStaysOf(cs, kind, init);
      assert CallIsOf(cs, kind, last);
      ApplyStaysOf(cs, kind, Run(cs, map[], init), last);
    }
  }

  lemma EditedStaysOf(cs: Charset, kind: string -> bool, users: UserTable, id: Uuid, change: UpdateInput)
    requires id in users && kind(users[id].username)
    requires change.username.Some? ==> NameIsOf(cs, kind, change.username.value)
    ensures Edited(cs, users, id, users[id], change).Ok? ==>
              kind(Edited(cs, users, id, users[id], change).value.username)
  {
  }

  lemma PutStaysOf(kind: string -> bool, users: UserTable, id: Uuid, user: User)
    requires TableIsOf(kind, users) && kind(user.username)
    ensures TableIsOf(kind, users[id := user])
  {
  }

  lemma CreateStaysOf(cs: Charset, kind: string -> bool, users: UserTable, input: CreateInput, id: Uuid)
    requires TableIsOf(kind, users) && NameIsOf(cs, kind, input.username)
    ensures TableIsOf(kind, CreateUser(cs, users, input, id).users)
  {
    if NewUser(cs, users, input).Ok? {
      PutStaysOf(kind, users, id, NewUser(cs, users, input).value);
    }
  }

  lemma UpdateStaysOf(cs: Charset, kind: string -> bool, users: UserTable, id: Uuid, change: UpdateInput)
    requires TableIsOf(kind, users) && (change.username.Some? ==> NameIsOf(cs, kind, change.username.value))
    ensures TableIsOf(kind, UpdateUser(cs, users, id, change).users)
  {
    if id in users && Edited(cs, users, id, users[id], change).Ok? {
      EditedStaysOf(cs, kind, users, id, change);
      PutStaysOf(kind, users, id, Edited(cs, users, id, users[id], change).value);
    }
  }

  lemma PasswordStaysOf(cs: Charset, kind: string -> bool, users: UserTable, id: Uuid, matches: bool, password: Password)
    requires TableIsOf(kind, users)
    ensures TableIsOf(kind, ChangePassword(cs, users, id, matches, password).users)
  {
    if id in users && WithPassword(users[id], matches, password).Ok? {
      PutStaysOf(kind, users, id, WithPassword(users[id], matches, password).value);
    }
  }

  lemma ApplyStaysOf(cs: Charset, kind: string -> bool, users: UserTable, call: Call)
    requires TableIsOf(kind, users) && CallIsOf(cs, kind, call)
    ensures TableIsOf(kind, Apply(cs, users, call))
  {
    match call {
      case CallBootstrap(input, _, id) => CreateStaysOf(cs, kind, users, input.(role := Role(Admin), enabled := None), id);
      case CallCreate(input, id) => CreateStaysOf(cs, kind, users, input, id);
      case CallUpdate(id, change) => UpdateStaysOf(cs, kind, users, id, change);
      case CallDelete(_) =>
      case CallPassword(id, matches, password) => PasswordStaysOf(cs, kind, users, id, matches, password);
    }
  }

  /** Nobody else has the key of a stored name. */
  lemma OwnKeyIsFree(cs: Charset, users: UserTable, id: Uuid, name: string)
    requires KeysUnique(cs, users) && id in users && Key(cs, name) == Key(cs, users[id].username)
    ensures !KeyTaken(cs, users, name, Some(id))
  {
    forall u | u in users && u != id
      ensures Key(cs, users[u].username) != Key(cs, name)
    {
      assert !SameKey(cs, users, u, id);
    }
  }

  lemma ExactFoldNeverClashes(cs: Charset, kind: string -> bool, users: UserTable, call: Call)
    requires ExactOn(cs, kind) && Tidy(cs, users) && TableIsOf(kind, users) && CallIsOf(cs, kind, call)
    ensures Fault(cs, users, call) != Some(IndexClash)
  {
    if (call.CallUpdate? || call.CallPassword?) && call.id in users {
      OwnKeyIsFree(cs, users, call.id, users[call.id].username);
      if call.CallUpdate? && call.change.username.Some? && NormalizeUsername(cs, call.change.username.value).Ok? {
        var name := NormalizeUsername(cs, call.change.username.value).value;
        if cs.folds(name, users[call.id].username) {
          OwnKeyIsFree(cs, users, call.id, name);
        }
      }
    }
  }

  /** In a run whose names are all of a kind on which the fold is exact, as strings.EqualFold is on
      lower-case ASCII, no call ends in the bare failure of the unique index. */
  lemma RunsNeverClash(cs: Charset, kind: string -> bool, calls: seq<Call>, call: Call)
    requires ExactOn(cs, kind) && CallIsOf(cs, kind, call)
    requires forall i :: 0 <= i < |calls| ==> CallIsOf(cs, kind, calls[i])
    ensures Fault(cs, Run(cs, map[], calls), call) != Some(IndexClash)
  {
    RunKeeps(cs, map[], calls);
    RunStaysOf(cs, kind, calls);
    ExactFoldNeverClashes(cs, kind, Run(cs, map[], calls), call);
  }

  /** From an empty table: once a bootstrap has succeeded, an enabled admin remains for good. */
  lemma BootstrappedRun(cs: Charset, input: CreateInput, id: Uuid, calls: seq<Call>)
    requires Bootstrap(cs, map[], input, true, id).reply.Ok?
    ensures EnabledAdmins(Run(cs, Bootstrap(cs, map[], input, true, id).users, calls)) != {}
    ensures Bootstrap(cs, Run(cs, Bootstrap(cs, map[], input, true, id).users, calls), input, true, id).reply
         == Err(BootstrapUnavailable)
  {
    var users := Bootstrap(cs, map[], input, true, id).users;
    assert users[id].enabled && users[id].role == Admin;
    assert id in EnabledAdmins(users);
    CreateKeepsTidy(cs, map[], input.(role := Role(Admin), enabled := None), id);
    RunKeeps(cs, users, calls);
    var end := Run(cs, users, calls);
    var a :| a in EnabledAdmins(end);
    assert a in end;
  }

  /** Deleting or demoting is refused as the last admin exactly for the only enabled admin. */
  lemma RefusedExactlyForOnlyAdmin(cs: Charset, users: UserTable, id: Uuid, change: UpdateInput)
    requires id in users
    ensures DeleteUser(users, id).reply == Err(LastAdmin) <==> EnabledAdmins(users) == {id}
    ensures UpdateUser(cs, users, id, change).reply == Err(LastAdmin) <==>
              EnabledAdmins(users) == {id} && Edited(cs, users, id, users[id], change).Ok?
              && !IsEnabledAdmin(Edited(cs, users, id, users[id], change).value)
  {
    var admins := EnabledAdmins(users);
    if id in admins && |admins| <= 1 {
      assert admins == {id} by {
        assert |admins - {id}| == |admins| - 1 == 0;
        assert admins - {id} == {};
      }
    }
    assert admins == {id} ==> id in admins && |admins| == 1;
  }

  /** Update skips its name check when the new name folds to the old one.  The unique index then
      catches a clash, as a bare store failure: exactly when another row has the name, the fold says
      the names are equal, and nothing else refuses the change. */
  lemma FoldSkipsTheCheckIff(cs: Charset, users: UserTable, id: Uuid, change: UpdateInput)
    requires Tidy(cs, users) && id in users
    ensures UpdateUser(cs, users, id, change).reply == Err(IndexClash) <==>
              change.username.Some? && NormalizeUsername(cs, change.username.value).Ok?
              && cs.folds(NormalizeUsername(cs, change.username.value).value, users[id].username)
              && KeyTaken(cs, users, NormalizeUsername(cs, change.username.value).value, Some(id))
              && var edited := Edited(cs, users, id, users[id], change);
                 edited.Ok? && (EnabledAdmins(users) == {id} ==> IsEnabledAdmin(edited.value))
  {
    OwnKeyIsFree(cs, users, id, users[id].username);
    RefusedExactlyForOnlyAdmin(cs, users, id, change);
  }

  // ---- an input for which the index fails --------------------------------------------

  /** Simple case folding of the letters used below: LATIN SMALL LETTER LONG S folds to s. */
  function Folded(c: char): char {
    if c == '\U{17F}' then 's' else c
  }

  /** unicode.ToLower and lower() leave the letters s, a and LONG S as they are; strings.EqualFold
      equates s and LONG S. */
  const LETTERS: Charset := Charset(
    c => c == 's' || c == 'a' || c == '\U{17F}', c => c, c => c, (x, y) => MapChars(Folded, x) == MapChars(Folded, y))

  function Plain(name: string): CreateInput {
    CreateInput(name, Password("password", Some("hash")), "", NoEmail, NoRole, None)
  }

  const LONG_S_NAME: string := ['\U{17F}', 'a']

  lemma TwoLetterName(cs: Charset, name: string)
    requires |name| == 2 && cs.alphanumeric(name[0]) && cs.alphanumeric(name[1])
    requires !IsSpace(name[0]) && !IsSpace(name[1])
    ensures NormalizeUsername(cs, name) == Ok(MapChars(cs.lower, name)) && Trim(name) == name
  {
    assert name == [name[0]] + name[1..] && name[1..] == [name[1]] && name[1..][1..] == "";
    assert ByteLength(name[1..][1..]) == 0;
    assert 1 <= ByteLength(name[1..]) <= 4;
    assert NameChars(cs, name);
  }

  lemma TwoLetters(name: string)
    requires |name| == 2 && LETTERS.alphanumeric(name[0]) && LETTERS.alphanumeric(name[1])
    ensures NormalizeUsername(LETTERS, name) == Ok(name) && Key(LETTERS, name) == name
  {
    assert !IsSpace(name[0]) && !IsSpace(name[1]);
    TwoLetterName(LETTERS, name);
    assert MapChars(LETTERS.lower, name) == name;
    assert MapChars(LETTERS.dbLower, name) == name;
  }

  lemma EightLetters()
    ensures PasswordFits(Password("password", Some("hash")))
  {
    assert ByteLength("password") == 1 + ByteLength("assword");
    assert ByteLength("assword") == 1 + ByteLength("ssword");
    assert ByteLength("ssword") == 1 + ByteLength("sword");
    assert ByteLength("sword") == 1 + ByteLength("word");
    assert ByteLength("word") == 1 + ByteLength("ord");
    assert ByteLength("ord") == 1 + ByteLength("rd");
    assert ByteLength("rd") == 1 + ByteLength("d");
    assert ByteLength("d") == 1 + ByteLength("");
  }

  lemma LongSFolds()
    ensures LETTERS.folds("sa", LONG_S_NAME) && "sa" != LONG_S_NAME
  {
    assert MapChars(Folded, LONG_S_NAME) == "sa" == MapChars(Folded, "sa");
    assert LONG_S_NAME[0] != "sa"[0];
  }

  function Account(name: string): User {
    User(name, "hash", "", "", Member, true)
  }

  lemma PlainCreate(users: UserTable, name: string, id: Uuid)
    requires NormalizeUsername(LETTERS, name) == Ok(name) && !KeyTaken(LETTERS, users, name, None) && id !in users
    ensures Apply(LETTERS, users, CallCreate(Plain(name), id)) == users[id := Account(name)]
  {
    EightLetters();
  }

  lemma RenameClashes(users: UserTable)
    requires users == map[1 := Account("sa"), 2 := Account(LONG_S_NAME)]
    ensures UpdateUser(LETTERS, users, 2, UpdateInput(Some("sa"), None, None, None, None, None)).reply == Err(IndexClash)
  {
    TwoLetters("sa");
    LongSFolds();
    assert 1 in users && KeyTaken(LETTERS, users, "sa", Some(2));
  }

  /** Two creates and a rename: both names are stored side by side, and renaming the second to the
      first ends in the bare failure. */
  lemma LongSClashes()
    ensures var users := Run(LETTERS, map[], [CallCreate(Plain("sa"), 1), CallCreate(Plain(LONG_S_NAME), 2)]);
            users == map[1 := Account("sa"), 2 := Account(LONG_S_NAME)]
            && UpdateUser(LETTERS, users, 2, UpdateInput(Some("sa"), None, None, None, None, None)).reply == Err(IndexClash)
  {
    TwoLetters("sa");
    TwoLetters(LONG_S_NAME);
    LongSFolds();
    var c1, c2 := CallCreate(Plain("sa"), 1), CallCreate(Plain(LONG_S_NAME), 2);
    var one: UserTable := map[1 := Account("sa")];
    PlainCreate(map[], "sa", 1);
    PlainCreate(one, LONG_S_NAME, 2);
    RunTwo(LETTERS, map[], c1, c2);
    RenameClashes(one[2 := Account(LONG_S_NAME)]);
  }

  lemma RunTwo(cs: Charset, users: UserTable, c1: Call, c2: Call)
    ensures Run(cs, users, [c1, c2]) == Apply(cs, Apply(cs, users, c1), c2)
  {
    assert [c1, c2][..1] == [c1] && [c1][..0] == [];
    assert Run(cs, users, [c1]) == Apply(cs, Run(cs, users, []), c1);
  }

  predicate NoLongS(name: string) {
    forall i :: 0 <= i < |name| ==> name[i] != '\U{17F}'
  }

  /** Without LONG S these letters are a kind of names on which the fold is exact; with it they are not. */
  lemma ExactWithoutLongS()
    ensures ExactOn(LETTERS, NoLongS) && !ExactOn(LETTERS, name => true)
  {
    forall x, y | NoLongS(x) && NoLongS(y) && LETTERS.folds(x, y)
      ensures Key(LETTERS, x) == Key(LETTERS, y)
    {
      assert MapChars(Folded, x) == x && MapChars(Folded, y) == y;
    }
    LongSFolds();
    TwoLetters("sa");
    TwoLetters(LONG_S_NAME);
    var all := (name: string) => true;
    assert all("sa") && all(LONG_S_NAME) && LETTERS.folds("sa", LONG_S_NAME);
  }

  // ---- a login that does not find its user -------------------------------------------

  /** unicode.ToLower takes E WITH ACUTE to its small letter; lower() of SQLite leaves both alone. */
  const ACCENTS: Charset := Charset(
    c => c == '\U{C9}' || c == '\U{E9}' || c == 'a', c => if c == '\U{C9}' then '\U{E9}' else c, c => c, (x, y) => x == y)

  const CAPITAL: string := ['\U{C9}', 'a']
  const SMALL: string := ['\U{E9}', 'a']

  lemma AccentedNames()
    ensures ACCENTS.Agrees()
    ensures NormalizeUsername(ACCENTS, CAPITAL) == Ok(SMALL) && Trim(CAPITAL) == CAPITAL && Trim(SMALL) == SMALL
    ensures Key(ACCENTS, CAPITAL) == CAPITAL && Key(ACCENTS, SMALL) == SMALL && CAPITAL != SMALL
  {
    TwoLetterName(ACCENTS, CAPITAL);
    TwoLetterName(ACCENTS, SMALL);
    assert MapChars(ACCENTS.lower, CAPITAL) == SMALL;
    assert MapChars(ACCENTS.dbLower, CAPITAL) == CAPITAL && MapChars(ACCENTS.dbLower, SMALL) == SMALL;
    assert CAPITAL[0] != SMALL[0];
  }

  lemma CapitalIsCreated()
    ensures Run(ACCENTS, map[], [CallCreate(Plain(CAPITAL), 1)]) == map[1 := Account(SMALL)]
  {
    AccentedNames();
    EightLetters();
    var call := CallCreate(Plain(CAPITAL), 1);
    assert [call][..0] == [];
    assert Run(ACCENTS, map[], [call]) == Apply(ACCENTS, Run(ACCENTS, map[], []), call);
  }

  /** A user created with a capital E WITH ACUTE is not found by a login with the same text, but is by
      one with the small letter. */
  lemma CapitalDoesNotLogIn()
    ensures var users := Run(ACCENTS, map[], [CallCreate(Plain(CAPITAL), 1)]);
            users == map[1 := Account(SMALL)]
            && (forall u :: !FoundByLogin(ACCENTS, users, CAPITAL, u)) && FoundByLogin(ACCENTS, users, SMALL, 1)
  {
    CapitalIsCreated();
    AccentedNames();
  }
}
