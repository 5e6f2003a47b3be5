/** The application state behind the HTTP handlers of app.py: the `users` and `tasks` tables and the
    id each table hands out next. Each handler is one atomic step on this state; the caller of a task
    handler is the owner id the access token carries. */
module App {
  import opened Outcomes
  import opened Text
  import Password
  import Accounts
  import Tasks

  class Store {
    var accounts: Accounts.Table
    var tasks: Tasks.Table
    var nextUserId: int
    var nextTaskId: int

    /** The store's invariant: each table's ids are below its counter, so the next id is fresh, and
        usernames are distinct, non-blank and trimmed. */
    ghost predicate Valid()
      reads this
    {
      AccountsValid() && TasksValid()
    }

    ghost predicate AccountsValid()
      reads this`accounts, this`nextUserId
    {
      && 1 <= nextUserId
      && (forall id :: id in accounts ==> 1 <= id < nextUserId)
      && Accounts.WellFormed(accounts)
    }

    ghost predicate TasksValid()
      reads this`tasks, this`nextTaskId
    {
      && 1 <= nextTaskId
      && (forall id :: id in tasks ==> 1 <= id < nextTaskId)
    }

    /** A fresh database whose `users` and `tasks` tables already exist. */
    constructor ()
      ensures Valid()
      ensures accounts == map[] && tasks == map[]
      ensures nextUserId == 1 && nextTaskId == 1
    {
      accounts, tasks := map[], map[];
      nextUserId, nextTaskId := 1, 1;
    }

    /** `register` (app.py lines 66-87), with bcrypt's random salt passed in. */
    method Register(username: string, password: string, salt: nat) returns (r: Result<Accounts.AccountView>)
      requires Valid()
      modifies this`accounts, this`nextUserId
      ensures Valid()
      ensures Accounts.Register(old(accounts), old(nextUserId), username, password, salt)
                == Accounts.Step(r, accounts)
      ensures nextUserId == if r.Ok? then old(nextUserId) + 1 else old(nextUserId)
    {
      var name := Trim(username);
      var secret := Trim(password);
      if name == [] || secret == [] {
        return Err(InvalidInput);
      }
      if Accounts.Taken(accounts, name) {
        return Err(DuplicateUsername);
      }
      var user := Accounts.Account(name, Password.HashPassword(secret, salt));
      TrimIdempotent(username);
      var id := AddAccount(user);
      r := Ok(Accounts.AsDict(id, user));
    }

    /** `db.session.add(new_user)` and the commit: the row goes in under the next user id. */
    method AddAccount(user: Accounts.Account) returns (id: int)
      requires Valid() && Stripped(user.username) && !Accounts.Taken(accounts, user.username)
      modifies this`accounts, this`nextUserId
      ensures Valid()
      ensures id == old(nextUserId) && id !in old(accounts)
      ensures accounts == old(accounts)[id := user] && nextUserId == old(nextUserId) + 1
    {
      id := nextUserId;
      Accounts.InsertKeepsWellFormed(accounts, id, user);
      accounts := accounts[id := user];
      nextUserId := nextUserId + 1;
    }

    /** `login` (app.py lines 91-105): reads the accounts and changes nothing. */
    method Login(username: string, password: string) returns (r: Result<Accounts.AccountView>)
      requires Valid()
      ensures r == Accounts.Login(accounts, username, password)
    {
      var name := Trim(username);
      var secret := Trim(password);
      if name == [] || secret == [] {
        return Err(InvalidInput);
      }
      if !Accounts.Taken(accounts, name) {
        return Err(BadCredential);
      }
      var id :| id in accounts && accounts[id].username == name;
      if !Password.CheckPassword(secret, accounts[id].passwordHash) {
        return Err(BadCredential);
      }
      r := Ok(Accounts.AsDict(id, accounts[id]));
    }

    /** `get_tasks` (app.py lines 108-115): reads the tasks and changes nothing. */
    method ListTasks(owner: int) returns (r: set<Tasks.TaskView>)
      ensures r == Tasks.Listing(tasks, owner)
    {
      r := Tasks.Listing(tasks, owner);
    }

    /** `add_task` (app.py lines 117-129). */
    method CreateTask(owner: int, text: string) returns (r: Result<Tasks.TaskView>)
      requires Valid()
      modifies this`tasks, this`nextTaskId
      ensures Valid()
      ensures Tasks.Create(old(tasks), old(nextTaskId), owner, text) == Tasks.Step(r, tasks)
      ensures nextTaskId == if r.Ok? then old(nextTaskId) + 1 else old(nextTaskId)
    {
      var content := Trim(text);
      if content == [] {
        return Err(InvalidInput);
      }
      var task := Tasks.Task(content, false, owner);
      var id := AddTask(task);
      r := Ok(Tasks.AsDict(id, task));
    }

    /** `db.session.add(task)` and the commit: the row goes in under the next task id. */
    method AddTask(task: Tasks.Task) returns (id: int)
      requires Valid()
      modifies this`tasks, this`nextTaskId
      ensures Valid()
      ensures id == old(nextTaskId) && id !in old(tasks)
      ensures tasks == old(tasks)[id := task] && nextTaskId == old(nextTaskId) + 1
    {
      id := nextTaskId;
      tasks := tasks[id := task];
      nextTaskId := nextTaskId + 1;
    }

    /** `update_task` (app.py lines 132-144): the fields present in the request are assigned one
        after the other. */
    method UpdateTask(owner: int, id: int, patch: Tasks.Patch) returns (r: Result<Tasks.TaskView>)
      requires Valid()
      modifies this`tasks
      ensures Valid()
      ensures Tasks.Update(old(tasks), id, owner, patch) == Tasks.Step(r, tasks)
    {
      var found := Tasks.Lookup(tasks, id, owner);
      if found.None? {
        return Err(NotFound);
      }
      var task := found.value;
      if patch.text.Some? {
        task := task.(text := patch.text.value);
      }
      if patch.done.Some? {
        task := task.(done := patch.done.value);
      }
      tasks := tasks[id := task];
      r := Ok(Tasks.AsDict(id, task));
    }

    /** `toggle_done` (app.py lines 147-154). */
    method ToggleTask(owner: int, id: int) returns (r: Result<Tasks.TaskView>)
      requires Valid()
      modifies this`tasks
      ensures Valid()
      ensures Tasks.Toggle(old(tasks), id, owner) == Tasks.Step(r, tasks)
    {
      var found := Tasks.Lookup(tasks, id, owner);
      if found.None? {
        return Err(NotFound);
      }
      var task := found.value.(done := !found.value.done);
      tasks := tasks[id := task];
      r := Ok(Tasks.AsDict(id, task));
    }

    /** `delete_task` (app.py lines 157-164). */
    method DeleteTask(owner: int, id: int) returns (r: Result<()>)
      requires Valid()
      modifies this`tasks
      ensures Valid()
      ensures Tasks.Delete(old(tasks), id, owner) == Tasks.Step(r, tasks)
    {
      var found := Tasks.Lookup(tasks, id, owner);
      if found.None? {
        return Err(NotFound);
      }
      tasks := tasks - {id};
      r := Ok(());
    }
  }

  /** The end-to-end exchange on a fresh store, for any credentials and text that need no trimming:
      register, log in, add a task, toggle it and list it; then a caller holding any other id
      cannot toggle that task. */
  method EndToEnd(name: string, secret: string, text: string, salt: nat, intruder: int)
    returns (loggedIn: Result<Accounts.AccountView>, listed: set<Tasks.TaskView>, stolen: Result<Tasks.TaskView>)
    requires Stripped(name) && Stripped(secret) && Stripped(text) && intruder != 1
    ensures loggedIn == Ok(Accounts.AccountView(1, name))
    ensures listed == {Tasks.TaskView(1, text, true, 1)}
    ensures stolen == Err(NotFound)
  {
    TrimIdempotent(name);
    TrimIdempotent(secret);
    TrimIdempotent(text);
    var store := new Store();
    var registered := store.Register(name, secret, salt);
    assert registered == Ok(Accounts.AccountView(1, name));
    Accounts.RegisterThenLogin(map[], 1, name, secret, salt);
    loggedIn := store.Login(name, secret);
    var created := store.CreateTask(1, text);
    assert created == Ok(Tasks.TaskView(1, text, false, 1));
    var toggled := store.ToggleTask(1, 1);
    assert toggled == Ok(Tasks.TaskView(1, text, true, 1));
    listed := store.ListTasks(1);
    assert Tasks.TaskView(1, text, true, 1) in listed;
    stolen := store.ToggleTask(intruder, 1);
  }
}
