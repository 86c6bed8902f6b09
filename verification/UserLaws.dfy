/** What the user calls do, said in terms of the table and the request alone: when each succeeds,
    exactly what it leaves in the record, and which error it gives otherwise.
 */
module UserLaws {
  import opened Common
  import opened Users

  // ---- text --------------------------------------------------------------------------

  /** The number of bytes UTF-8 takes for a character. */
  lemma CharBytes(c: char)
    ensures ByteLength([c]) == if c < '\U{80}' then 1 else if c < '\U{800}' then 2 else if c < '\U{10000}' then 3 else 4
  {
    assert [c][1..] == "";
  }

  lemma {:induction false} BytesAdd(a: string, b: string)
    ensures ByteLength(a + b) == ByteLength(a) + ByteLength(b)
  {
    if a == "" {
      assert a + b == b;
    } else {
      assert (a + b)[1..] == a[1..] + b;
      BytesAdd(a[1..], b);
    }
  }

  predicate NameShape(cs: Charset, text: string) {
    2 <= ByteLength(text) <= 64
    && forall c :: c in text ==> cs.alphanumeric(c) || c in {'.', '_', '-'}
  }

  /** A username is accepted exactly when its trimmed text is 2 to 64 bytes of letters, digits, dots,
      underscores and hyphens; it is stored in lower case, character by character. */
  lemma NamesNormalize(cs: Charset, raw: string)
    ensures NormalizeUsername(cs, raw).Ok? <==> NameShape(cs, Trim(raw))
    ensures NormalizeUsername(cs, raw).Ok? ==>
              var name := NormalizeUsername(cs, raw).value;
              |name| == |Trim(raw)| && forall i :: 0 <= i < |name| ==> name[i] == cs.lower(Trim(raw)[i])
    ensures NormalizeUsername(cs, raw).Err? ==> NormalizeUsername(cs, raw).error == InvalidUsername
  {
    var text := Trim(raw);
    if NameChars(cs, text) {
      forall c | c in text
        ensures cs.alphanumeric(c) || c in {'.', '_', '-'}
      {
        var i :| 0 <= i < |text| && text[i] == c;
      }
    }
  }

  ghost predicate NobodyElseHas(cs: Charset, users: UserTable, self: Option<Uuid>, name: string) {
    forall u :: u in users && Some(u) != self ==> Key(cs, users[u].username) != Key(cs, name)
  }

  /** 8 to 200 bytes, and bcrypt makes a hash of it. */
  predicate GoodPassword(p: Password) {
    8 <= ByteLength(p.text) <= 200 && p.hash.Some?
  }

  // ---- update ------------------------------------------------------------------------

  /** The user would be an enabled admin after the change. */
  predicate AdminAfter(seen: User, input: UpdateInput) {
    (match input.role case None => seen.role == Admin case Some(r) => r == Role(Admin))
    && (match input.enabled case None => seen.enabled case Some(e) => e)
  }

  ghost predicate UpdateFits(cs: Charset, users: UserTable, id: Uuid, input: UpdateInput) {
    id in users
    && (input.username.Some? ==>
          NameShape(cs, Trim(input.username.value))
          && NobodyElseHas(cs, users, Some(id), MapChars(cs.lower, Trim(input.username.value))))
    && input.email != Some(BadEmail)
    && (input.role.Some? ==> input.role.value.Role?)
    && (input.password.Some? ==> GoodPassword(input.password.value))
    && (EnabledAdmins(users) == {id} ==> AdminAfter(users[id], input))
  }

  /** Every field is the given one where one is given, and the old one otherwise. */
  predicate UpdatedFrom(cs: Charset, seen: User, input: UpdateInput, user: User) {
    user.username == (match input.username case None => seen.username case Some(raw) => MapChars(cs.lower, Trim(raw)))
    && user.displayName == (match input.displayName case None => seen.displayName case Some(text) => Trim(text))
    && user.email == (match input.email
                      case None => seen.email
                      case Some(Email(address)) => address
                      case Some(_) => "")
    && (match input.role case None => user.role == seen.role case Some(r) => r == Role(user.role))
    && user.enabled == (match input.enabled case None => seen.enabled case Some(e) => e)
    && (match input.password case None => user.passwordHash == seen.passwordHash case Some(p) => p.hash == Some(user.passwordHash))
  }

  lemma EditedLaw(cs: Charset, users: UserTable, id: Uuid, seen: User, input: UpdateInput)
    ensures Edited(cs, users, id, seen, input).Ok? ==>
              var user := Edited(cs, users, id, seen, input).value;
              UpdatedFrom(cs, seen, input, user) && (IsEnabledAdmin(user) <==> AdminAfter(seen, input))
    ensures Edited(cs, users, id, seen, input).Ok? <==>
              (input.username.Some? ==>
                 NameShape(cs, Trim(input.username.value))
                 && (cs.folds(MapChars(cs.lower, Trim(input.username.value)), seen.username)
                     || NobodyElseHas(cs, users, Some(id), MapChars(cs.lower, Trim(input.username.value)))))
              && input.email != Some(BadEmail) && (input.role.Some? ==> input.role.value.Role?)
              && (input.password.Some? ==> GoodPassword(input.password.value))
  {
    if input.username.Some? {
      NamesNormalize(cs, input.username.value);
    }
  }

  /** An update succeeds exactly when the user exists, the given fields are valid, nobody else has the
      name, and the only enabled admin stays one; it then changes that user's record only, to the given
      fields and the old ones. */
  lemma UpdateLaw(cs: Charset, users: UserTable, id: Uuid, input: UpdateInput)
    requires Tidy(cs, users)
    ensures var out := UpdateUser(cs, users, id, input);
            (out.reply.Ok? <==> UpdateFits(cs, users, id, input))
            && (out.reply.Ok? ==> id in users && out.users == users[id := out.reply.value]
                                  && UpdatedFrom(cs, users[id], input, out.reply.value))
            && (out.reply.Err? ==> out.users == users)
  {
    if id in users {
      EditedLaw(cs, users, id, users[id], input);
      OwnKeyIsFree(cs, users, id, users[id].username);
      RefusedExactlyForOnlyAdmin(cs, users, id, input);
    }
  }

  /** What an update fails for, in this order. */
  lemma UpdateErrors(cs: Charset, users: UserTable, id: Uuid, input: UpdateInput)
    requires Tidy(cs, users)
    ensures var reply := UpdateUser(cs, users, id, input).reply;
            if id !in users then reply == Err(UserNotFound)
            else if input.username.Some? && !NameShape(cs, Trim(input.username.value)) then reply == Err(InvalidUsername)
            else if input.username.Some? && !cs.folds(MapChars(cs.lower, Trim(input.username.value)), users[id].username)
                    && !NobodyElseHas(cs, users, Some(id), MapChars(cs.lower, Trim(input.username.value)))
            then reply == Err(UsernameTaken)
            else if input.email == Some(BadEmail) then reply == Err(InvalidEmail)
            else if input.role.Some? && !input.role.value.Role? then reply == Err(InvalidRole)
            else if input.password.Some? && !(8 <= ByteLength(input.password.value.text) <= 200) then reply == Err(InvalidPassword)
            else if input.password.Some? && input.password.value.hash.None? then reply == Err(Failure)
            else if EnabledAdmins(users) == {id} && !AdminAfter(users[id], input) then reply == Err(LastAdmin)
            else reply.Err? ==> reply == Err(IndexClash)
  {
    if id in users {
      EditedLaw(cs, users, id, users[id], input);
      RefusedExactlyForOnlyAdmin(cs, users, id, input);
      if input.username.Some? {
        NamesNormalize(cs, input.username.value);
      }
    }
  }

  // ---- create and bootstrap ----------------------------------------------------------

  ghost predicate CreateFits(cs: Charset, users: UserTable, input: CreateInput, id: Uuid) {
    NameShape(cs, Trim(input.username)) && NobodyElseHas(cs, users, None, MapChars(cs.lower, Trim(input.username)))
    && GoodPassword(input.password) && input.role != UnknownRole && input.email != BadEmail && id !in users
  }

  predicate CreatedFrom(cs: Charset, input: CreateInput, user: User) {
    user.username == MapChars(cs.lower, Trim(input.username)) && user.displayName == Trim(input.displayName)
    && input.password.hash == Some(user.passwordHash)
    && user.email == (match input.email case Email(address) => address case _ => "")
    && (match input.role case Role(r) => user.role == r case _ => user.role == Member)
    && (match input.enabled case None => user.enabled case Some(e) => user.enabled == e)
  }

  /** A create succeeds exactly for valid fields, a name nobody has and a new uuid; it adds the record of
      the given fields, by default an enabled plain user, and nothing else. */
  lemma CreateLaw(cs: Charset, users: UserTable, input: CreateInput, id: Uuid)
    ensures var out := CreateUser(cs, users, input, id);
            (out.reply.Ok? <==> CreateFits(cs, users, input, id))
            && (out.reply.Ok? ==> out.users == users[id := out.reply.value] && CreatedFrom(cs, input, out.reply.value))
            && (out.reply.Err? ==> out.users == users)
    ensures var reply := CreateUser(cs, users, input, id).reply;
            if !NameShape(cs, Trim(input.username)) then reply == Err(InvalidUsername)
            else if !(8 <= ByteLength(input.password.text) <= 200) then reply == Err(InvalidPassword)
            else if input.role == UnknownRole then reply == Err(InvalidRole)
            else if input.email == BadEmail then reply == Err(InvalidEmail)
            else if !NobodyElseHas(cs, users, None, MapChars(cs.lower, Trim(input.username))) then reply == Err(UsernameTaken)
            else reply.Err? ==> reply == Err(Failure)
  {
    NamesNormalize(cs, input.username);
  }

  /** Bootstrap succeeds exactly for an empty table, the right token and a valid first user, who becomes
      an enabled admin whatever role and flag were given. */
  lemma BootstrapLaw(cs: Charset, users: UserTable, input: CreateInput, tokenFits: bool, id: Uuid)
    ensures var out := Bootstrap(cs, users, input, tokenFits, id);
            (out.reply.Ok? <==>
              users == map[] && tokenFits && NameShape(cs, Trim(input.username)) && GoodPassword(input.password)
              && input.email != BadEmail)
            && (out.reply.Ok? ==>
                  out.users == map[id := out.reply.value] && IsEnabledAdmin(out.reply.value)
                  && out.reply.value.username == MapChars(cs.lower, Trim(input.username)))
            && (out.reply.Err? ==> out.users == users)
            && (users != map[] ==> out.reply == Err(BootstrapUnavailable))
            && (users == map[] && !tokenFits ==> out.reply == Err(BootstrapForbidden))
  {
    CreateLaw(cs, users, input.(role := Role(Admin), enabled := None), id);
    if users != map[] {
      assert users.Keys != {};
      assert |users| > 0;
    }
  }

  // ---- delete and change of password -------------------------------------------------

  /** A delete succeeds exactly for a user who is not the only enabled admin, and removes that user. */
  lemma DeleteLaw(users: UserTable, id: Uuid)
    ensures var out := DeleteUser(users, id);
            (out.reply.Ok? <==> id in users && EnabledAdmins(users) != {id})
            && out.users == (if out.reply.Ok? then users - {id} else users)
            && (out.reply.Err? ==> out.reply.error == if id in users then LastAdmin else UserNotFound)
  {
    if id in users {
      RefusedExactlyForOnlyAdmin(Charset(c => true, c => c, c => c, (x, y) => x == y), users, id,
                                 UpdateInput(None, None, None, None, None, None));
    }
  }

  /** A change of password succeeds exactly for an existing user, the right current password and a good
      new one; it replaces the hash and nothing else. */
  lemma PasswordLaw(cs: Charset, users: UserTable, id: Uuid, matches: bool, fresher: Password)
    requires Tidy(cs, users)
    ensures var out := ChangePassword(cs, users, id, matches, fresher);
            (out.reply.Ok? <==> id in users && matches && GoodPassword(fresher))
            && (out.reply.Ok? ==> out.users == users[id := out.reply.value]
                                  && fresher.hash == Some(out.reply.value.passwordHash)
                                  && out.reply.value.(passwordHash := users[id].passwordHash) == users[id])
            && (out.reply.Err? ==> out.users == users)
    ensures var reply := ChangePassword(cs, users, id, matches, fresher).reply;
            if id !in users then reply == Err(UserNotFound)
            else if !matches then reply == Err(WrongPassword)
            else if !(8 <= ByteLength(fresher.text) <= 200) then reply == Err(InvalidPassword)
            else reply.Err? ==> reply == Err(Failure)
  {
    if id in users {
      OwnKeyIsFree(cs, users, id, users[id].username);
    }
  }
}
