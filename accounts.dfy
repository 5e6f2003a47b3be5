/** The `users` table (app.py lines 27-42) and the two handlers that use it, `register` and `login`
    (app.py lines 66-105), as functions from a table to a result and a new table. */
module Accounts {
  import opened Outcomes
  import opened Text
  import opened Password

  /** A row of `users`: the username and the password hash; no plaintext password is kept. */
  datatype Account = Account(username: string, passwordHash: Digest)

  /** `User.as_dict`: what the handlers send back about an account. */
  datatype AccountView = AccountView(id: int, username: string)

  type Table = map<int, Account>

  /** A handler's answer together with the table it leaves behind. */
  datatype Step = Step(result: Result<AccountView>, table: Table)

  /** `User.as_dict`: the id and the username, and nothing of the password hash. */
  function AsDict(id: int, a: Account): (v: AccountView)
    ensures v.id == id && v.username == a.username
  {
    AccountView(id, a.username)
  }

  /** `User.query.filter_by(username=username).first()` finds a row: the name is among the table's
      usernames. */
  predicate Taken(t: Table, username: string): (b: bool)
    ensures b <==> username in (set id | id in t :: t[id].username)
  {
    exists id :: id in t && t[id].username == username
  }

  /** Some row has this username and a hash that verifies this password. */
  predicate Matches(t: Table, username: string, password: string) {
    exists id :: id in t && t[id].username == username && CheckPassword(password, t[id].passwordHash)
  }

  /** The column is declared `unique=True`. */
  ghost predicate UniqueUsernames(t: Table) {
    forall i, j :: i in t && j in t && t[i].username == t[j].username ==> i == j
  }

  /** What every table built by `Register` satisfies: usernames are distinct, non-blank and trimmed. */
  ghost predicate WellFormed(t: Table) {
    && UniqueUsernames(t)
    && forall id :: id in t ==> Stripped(t[id].username)
  }

  /** `register`: both fields are trimmed, then handled by `RegisterTrimmed`; so the request is
      InvalidInput exactly when a field is nothing but whitespace. */
  function Register(t: Table, freshId: int, username: string, password: string, salt: nat): (s: Step)
    requires freshId !in t
    ensures s.result == Err(InvalidInput) <==> AllSpace(username) || AllSpace(password)
  {
    RegisterTrimmed(t, freshId, Trim(username), Trim(password), salt)
  }

  /** `register` after trimming: a blank field is InvalidInput, a username already present is
      DuplicateUsername, and in both cases the table is unchanged. Otherwise exactly one row is added,
      under the fresh id, with the username and a hash that verifies the password. */
  function RegisterTrimmed(t: Table, freshId: int, name: string, secret: string, salt: nat): (s: Step)
    requires freshId !in t
    ensures s.result == Err(InvalidInput) <==> name == [] || secret == []
    ensures s.result == Err(DuplicateUsername) <==> name != [] && secret != [] && Taken(t, name)
    ensures s.result.Ok? <==> name != [] && secret != [] && !Taken(t, name)
    ensures s.result.Err? ==> s.table == t
    ensures s.result.Ok? ==>
              && s.result.value == AccountView(freshId, name)
              && s.table == t[freshId := Account(name, HashPassword(secret, salt))]
              && CheckPassword(secret, s.table[freshId].passwordHash)
  {
    if name == [] || secret == [] then Step(Err(InvalidInput), t)
    else if Taken(t, name) then Step(Err(DuplicateUsername), t)
    else Step(Ok(AccountView(freshId, name)), t[freshId := Account(name, HashPassword(secret, salt))])
  }

  /** Adding a row whose username is new, non-blank and trimmed keeps the table well formed. */
  lemma {:induction false} InsertKeepsWellFormed(t: Table, freshId: int, a: Account)
    requires WellFormed(t) && freshId !in t
    requires Stripped(a.username) && !Taken(t, a.username)
    ensures WellFormed(t[freshId := a])
  {
  }

  /** Registration keeps usernames distinct, non-blank and trimmed. */
  lemma {:induction false} RegisterKeepsWellFormed(t: Table, freshId: int, username: string, password: string, salt: nat)
    requires freshId !in t && WellFormed(t)
    ensures WellFormed(Register(t, freshId, username, password, salt).table)
  {
    var s := Register(t, freshId, username, password, salt);
    if s.result.Ok? {
      var u := Trim(username);
      TrimIdempotent(username);
      InsertKeepsWellFormed(t, freshId, Account(u, HashPassword(Trim(password), salt)));
    }
  }

  /** `login`: both fields are trimmed and a blank one is InvalidInput; then the row with that username
      is looked up and its hash checked. A missing row and a wrong password give the same
      BadCredential; the table is only read. */
  ghost function Login(t: Table, username: string, password: string): (r: Result<AccountView>)
    ensures r == Err(InvalidInput) <==> Trim(username) == [] || Trim(password) == []
    ensures r.Err? && r != Err(InvalidInput) ==> r == Err(BadCredential)
    ensures r.Ok? ==>
              && r.value.id in t
              && r.value == AsDict(r.value.id, t[r.value.id])
              && t[r.value.id].username == Trim(username)
              && CheckPassword(Trim(password), t[r.value.id].passwordHash)
    ensures UniqueUsernames(t) && r != Err(InvalidInput) ==>
              (r.Ok? <==> Matches(t, Trim(username), Trim(password)))
  {
    var u := Trim(username);
    var p := Trim(password);
    if u == [] || p == [] then Err(InvalidInput)
    else if !Taken(t, u) then Err(BadCredential)
    else
      var id :| id in t && t[id].username == u;
      if CheckPassword(p, t[id].passwordHash) then Ok(AsDict(id, t[id])) else Err(BadCredential)
  }

  /** A registration with non-blank fields and a new username succeeds, and logging in with the same
      credentials then succeeds, as the new account. */
  lemma {:induction false} RegisterThenLogin(t: Table, id: int, username: string, password: string, salt: nat)
    requires id !in t && !AllSpace(username) && !AllSpace(password) && !Taken(t, Trim(username))
    ensures Register(t, id, username, password, salt).result == Ok(AccountView(id, Trim(username)))
    ensures Login(Register(t, id, username, password, salt).table, username, password)
              == Ok(AccountView(id, Trim(username)))
  {
    var t' := Register(t, id, username, password, salt).table;
    assert t' == t[id := Account(Trim(username), HashPassword(Trim(password), salt))];
    assert Taken(t', Trim(username));
    var chosen :| chosen in t' && t'[chosen].username == Trim(username);
    assert chosen == id;
  }

  /** A second registration of the same trimmed username fails with DuplicateUsername and adds nothing. */
  lemma {:induction false} RegisterTwiceIsDuplicate(t: Table, id: int, username: string, password: string, salt: nat,
                                                    id2: int, username2: string, password2: string, salt2: nat)
    requires id !in t && !AllSpace(username) && !AllSpace(password) && !Taken(t, Trim(username))
    requires id2 != id && id2 !in t
    requires Trim(username2) == Trim(username) && !AllSpace(password2)
    ensures var t' := Register(t, id, username, password, salt).table;
            Register(t', id2, username2, password2, salt2) == Step(Err(DuplicateUsername), t')
  {
    var t' := Register(t, id, username, password, salt).table;
    assert t'[id].username == Trim(username2);
  }

  /** An account's username with any password other than its own is refused with BadCredential. */
  lemma {:induction false} WrongPasswordRejected(t: Table, id: int, username: string, password: string, salt: nat,
                                                 other: string)
    requires UniqueUsernames(t) && id in t
    requires t[id].username == Trim(username) && t[id].passwordHash == HashPassword(Trim(password), salt)
    requires !AllSpace(username) && !AllSpace(other) && Trim(other) != Trim(password)
    ensures Login(t, username, other) == Err(BadCredential)
  {
    var r := Login(t, username, other);
    if r.Ok? {
      assert r.value.id == id;
      CheckIffSame(Trim(other), Trim(password), salt);
      assert false;
    }
  }

  /** A username that has no account is refused with BadCredential too, whatever the password: the
      answer does not tell the two cases apart. */
  lemma {:induction false} UnknownUserRejected(t: Table, username: string, password: string)
    requires !AllSpace(username) && !AllSpace(password) && !Taken(t, Trim(username))
    ensures Login(t, username, password) == Err(BadCredential)
  {
  }
}
