/**
 * The seven request handlers over the users and tasks tables. The tables are
 * the two map fields of `TaskStore`; the handlers that write them are its
 * methods and the handlers that only read are its functions. Protected
 * handlers receive the caller that `Auth.Authenticate` resolved.
 */
module App {
  import opened Wrappers
  import opened Errors
  import opened Schemas
  import opened Models
  import Auth

  /** The column defaults the store fills in for a new task row. */
  datatype TaskDefaults = TaskDefaults(isCompleted: bool, createdAt: Instant, updatedAt: Instant)

  /** `response_model=schemas.User`: the row without its password hash. */
  function UserResponse(row: UserRow): (u: User)
    ensures u.id == row.id && u.email == row.email && u.isActive == row.isActive
  {
    User(row.id, row.email, row.isActive)
  }

  /** Every task row is stored under its own id. */
  ghost predicate TasksKeyedById(tasks: map<int, Task>)
  {
    forall k :: k in tasks ==> tasks[k].id == k
  }

  /** The lookup by task id and owner id that read, update and delete share finds a row. */
  predicate Owns(tasks: map<int, Task>, taskId: int, ownerId: int)
  {
    taskId in tasks && tasks[taskId].ownerId == ownerId
  }

  /** The filters of `read_tasks`: the owner, and the completion state when one is given. */
  predicate Matches(t: Task, ownerId: int, completed: Option<bool>)
  {
    t.ownerId == ownerId && (completed.Some? ==> t.isCompleted == completed.value)
  }

  /** The ids among `ids` whose rows pass the filters, in the order of `ids`. */
  function MatchingIds(tasks: map<int, Task>, ids: seq<int>, ownerId: int, completed: Option<bool>): (r: seq<int>)
    requires forall k :: k in ids ==> k in tasks
    ensures forall k :: k in r <==> k in ids && Matches(tasks[k], ownerId, completed)
    ensures Increasing(ids) ==> Increasing(r)
    decreases |ids|
  {
    if ids == [] then []
    else
      var head, tail := ids[0], ids[1..];
      assert head in ids && forall k :: k in tail ==> k in ids;
      var rest := MatchingIds(tasks, tail, ownerId, completed);
      if Matches(tasks[head], ownerId, completed) then
        PrependIncreasing(ids, rest);
        [head] + rest
      else
        assert Increasing(ids) ==> Increasing(tail);
        rest
  }

  lemma PrependIncreasing(ids: seq<int>, rest: seq<int>)
    requires ids != []
    requires forall k :: k in rest ==> k in ids[1..]
    requires Increasing(ids[1..]) ==> Increasing(rest)
    ensures Increasing(ids) ==> Increasing([ids[0]] + rest)
  {
    if Increasing(ids) {
      var head, tail := ids[0], ids[1..];
      assert Increasing(tail);
      var s := [head] + rest;
      forall i, j | 0 <= i < j < |s|
        ensures s[i] < s[j]
      {
        var y := s[j];
        assert y == rest[j - 1] && y in rest;
        var n := IndexOf(tail, y);
        assert ids[n + 1] == y;
        if i > 0 {
          assert s[i] == rest[i - 1];
        }
      }
    }
  }

  /** The rows stored under `ids`, in the same order. */
  function RowsOf(tasks: map<int, Task>, ids: seq<int>): (r: seq<Task>)
    requires forall k :: k in ids ==> k in tasks
    ensures |r| == |ids|
    ensures forall i :: 0 <= i < |ids| ==> ids[i] in tasks && r[i] == tasks[ids[i]]
  {
    if ids == [] then []
    else
      var head := ids[0];
      assert head in ids;
      [tasks[head]] + RowsOf(tasks, ids[1..])
  }

  /**
   * The caller's tasks passing the filters, before offset and limit: every
   * such row, nothing else, in ascending id order.
   */
  function OwnedTasks(tasks: map<int, Task>, ownerId: int, completed: Option<bool>): (r: seq<Task>)
    ensures forall t :: t in r ==> t in tasks.Values && Matches(t, ownerId, completed)
    ensures forall k :: k in tasks && Matches(tasks[k], ownerId, completed) ==> tasks[k] in r
    ensures TasksKeyedById(tasks) ==> forall i, j :: 0 <= i < j < |r| ==> r[i].id < r[j].id
  {
    var ids := MatchingIds(tasks, Ascending(tasks.Keys), ownerId, completed);
    OwnedRowsFacts(tasks, ids, ownerId, completed);
    RowsOf(tasks, ids)
  }

  /**
   * The rows stored under the matching ids, in ascending id order, are the
   * listing `OwnedTasks` promises.
   */
  lemma OwnedRowsFacts(tasks: map<int, Task>, ids: seq<int>, ownerId: int, completed: Option<bool>)
    requires forall k :: k in ids <==> k in tasks && Matches(tasks[k], ownerId, completed)
    requires Increasing(ids)
    ensures var r := RowsOf(tasks, ids);
            && (forall t :: t in r ==> t in tasks.Values && Matches(t, ownerId, completed))
            && (forall k :: k in tasks && Matches(tasks[k], ownerId, completed) ==> tasks[k] in r)
            && (TasksKeyedById(tasks) ==> forall i, j :: 0 <= i < j < |r| ==> r[i].id < r[j].id)
  {
  }

  /** The position of an element of a sequence. */
  function IndexOf(s: seq<int>, x: int): (i: nat)
    requires x in s
    ensures i < |s| && s[i] == x
  {
    if s[0] == x then 0 else 1 + IndexOf(s[1..], x)
  }

  /** Offset, then limit: drop the first `skip` rows, keep at most `limit`. */
  function Page<T>(rows: seq<T>, skip: nat, limit: nat): (r: seq<T>)
    ensures |r| == if skip >= |rows| then 0 else if |rows| - skip < limit then |rows| - skip else limit
    ensures forall i :: 0 <= i < |r| ==> r[i] == rows[skip + i]
    ensures forall x :: x in r ==> x in rows
  {
    var rest := if skip <= |rows| then rows[skip..] else [];
    if limit <= |rest| then rest[..limit] else rest
  }

  /** Writing one sent field into the task row. */
  function SetAttr(t: Task, f: FieldValue): Task
  {
    match f
    case TitleIs(x) => t.(title := x)
    case DescriptionIs(x) => t.(description := x)
    case DueDateIs(x) => t.(dueDate := x)
    case CompletedIs(x) => t.(isCompleted := x)
  }

  /** The task after the entries of `items` have been written, first to last. */
  function ApplyAll(t: Task, items: seq<FieldValue>): Task
    decreases |items|
  {
    if items == [] then t else ApplyAll(SetAttr(t, items[0]), items[1..])
  }

  /** The update loop: each sent field, in order, is written into the task row. */
  method SetFields(dbTask: Task, updateData: seq<FieldValue>) returns (updated: Task)
    ensures updated == ApplyAll(dbTask, updateData)
  {
    updated := dbTask;
    for i := 0 to |updateData|
      invariant ApplyAll(updated, updateData[i..]) == ApplyAll(dbTask, updateData)
    {
      assert updateData[i..][1..] == updateData[i + 1..];
      updated := SetAttr(updated, updateData[i]);
    }
  }

  /**
   * The intended effect of a partial update: each field the client sent takes
   * the sent value, every other field keeps its value.
   */
  function Patched(t: Task, u: TaskUpdate): (p: Task)
    ensures p.id == t.id && p.ownerId == t.ownerId
    ensures p.createdAt == t.createdAt && p.updatedAt == t.updatedAt
  {
    Task(
      t.id,
      if u.title.Set? then u.title.value else t.title,
      if u.description.Set? then u.description.value else t.description,
      if u.dueDate.Set? then u.dueDate.value else t.dueDate,
      if u.isCompleted.Set? then u.isCompleted.value else t.isCompleted,
      t.createdAt,
      t.updatedAt,
      t.ownerId)
  }

  /** Running the loop over an optional first entry and then the rest. */
  lemma ApplyOptional(t: Task, p: seq<FieldValue>, rest: seq<FieldValue>)
    requires |p| <= 1
    ensures ApplyAll(t, p + rest) == ApplyAll(if p == [] then t else SetAttr(t, p[0]), rest)
  {
    if p == [] {
      assert p + rest == rest;
    } else {
      assert (p + rest)[1..] == rest;
    }
  }

  /** The update loop over the sent fields computes `Patched`. */
  lemma ApplyUpdateDataIsPatched(t: Task, u: TaskUpdate)
    ensures ApplyAll(t, UpdateData(u)) == Patched(t, u)
  {
    var p1 := if u.title.Set? then [TitleIs(u.title.value)] else [];
    var p2 := if u.description.Set? then [DescriptionIs(u.description.value)] else [];
    var p3 := if u.dueDate.Set? then [DueDateIs(u.dueDate.value)] else [];
    var p4 := if u.isCompleted.Set? then [CompletedIs(u.isCompleted.value)] else [];
    assert UpdateData(u) == p1 + (p2 + (p3 + p4));
    var t1 := if u.title.Set? then t.(title := u.title.value) else t;
    var t2 := if u.description.Set? then t1.(description := u.description.value) else t1;
    var t3 := if u.dueDate.Set? then t2.(dueDate := u.dueDate.value) else t2;
    var t4 := if u.isCompleted.Set? then t3.(isCompleted := u.isCompleted.value) else t3;
    ApplyOptional(t, p1, p2 + (p3 + p4));
    ApplyOptional(t1, p2, p3 + p4);
    ApplyOptional(t2, p3, p4);
    ApplyOptional(t3, p4, []);
    assert p4 + [] == p4;
    assert t4 == Patched(t, u);
  }

  /** Sending the same partial update twice changes nothing the second time. */
  lemma PatchedIdempotent(t: Task, u: TaskUpdate)
    ensures Patched(Patched(t, u), u) == Patched(t, u)
  {
  }

  /** An update that sets no field leaves the task as it was. */
  lemma EmptyUpdateIsIdentity(t: Task)
    ensures Patched(t, TaskUpdate(Unset, Unset, Unset, Unset)) == t
  {
  }

  /**
   * The claims of the token `login` issues for `email`: what
   * `create_access_token` makes of `{"sub": email}` with the configured
   * lifetime passed as the delta (a zero lifetime falls back to itself).
   */
  function LoginClaims(email: string, now: Instant, settings: Auth.Settings): (c: Auth.Claims)
    ensures c.Keys == {"sub", "exp"}
    ensures c["sub"] == Auth.Str(email)
    ensures c["exp"] == Auth.Num(now + Auth.Minutes(settings.accessTokenExpireMinutes))
    ensures c == Auth.AccessClaims(map["sub" := Auth.Str(email)],
                                   Some(Auth.Minutes(settings.accessTokenExpireMinutes)), now, settings)
  {
    map["sub" := Auth.Str(email), "exp" := Auth.Num(now + Auth.Minutes(settings.accessTokenExpireMinutes))]
  }

  class TaskStore {
    /** The users table, by id. */
    var users: map<int, UserRow>
    /** The tasks table, by id. */
    var tasks: map<int, Task>

    /**
     * Rows sit under their ids, emails are unique, every task belongs to a
     * stored user and has a non-empty title.
     */
    ghost predicate Valid()
      reads this
    {
      && KeyedById(users)
      && EmailsUnique(users)
      && TasksKeyedById(tasks)
      && (forall k :: k in tasks ==> tasks[k].ownerId in users && ValidTask(tasks[k]))
    }

    constructor ()
      ensures Valid() && users == map[] && tasks == map[]
    {
      users := map[];
      tasks := map[];
    }

    /**
     * `register_user`. `newId` is the id the database generates and `salt`
     * the randomness of the hash; `isActive` is the column default. The
     * duplicate check and the stored row use the address as `normalize`
     * (the `EmailStr` schema type) returns it, not as sent.
     */
    method RegisterUser(user: UserCreate, newId: int, salt: string, hasher: Auth.Hasher,
                        normalize: EmailNormalizer, isActive: bool)
      returns (r: Result<User, Error>)
      requires Valid()
      requires newId !in users
      modifies this
      ensures Valid() && tasks == old(tasks)
      ensures normalize(user.email).None? ==> r == Err(Unprocessable) && users == old(users)
      ensures normalize(user.email).Some? && EmailTaken(old(users), normalize(user.email).value) ==>
                r == Err(AlreadyExists) && users == old(users)
      ensures normalize(user.email).Some? && !EmailTaken(old(users), normalize(user.email).value) ==>
                var row := UserRow(newId, normalize(user.email).value, hasher.hash(user.password, salt), isActive);
                && r == Ok(UserResponse(row))
                && users == old(users)[newId := row]
    {
      var email := normalize(user.email);
      if email.None? {
        return Err(Unprocessable);
      }
      var dbUser := UserByEmail(users, email.value);
      if dbUser.Some? {
        return Err(AlreadyExists);
      }
      var hashedPassword := hasher.hash(user.password, salt);
      var row := UserRow(newId, email.value, hashedPassword, isActive);
      users := users[newId := row];
      r := Ok(UserResponse(row));
    }

    /**
     * `login`: a token for the user whose email is `username`, provided the
     * password verifies against the stored hash. An unknown email and a wrong
     * password give the same error.
     */
    function Login(username: string, password: string, now: Instant, settings: Auth.Settings,
                   hasher: Auth.Hasher, jwt: Auth.Jwt): (r: Result<Token, Error>)
      requires Valid()
      reads this
      ensures !EmailTaken(users, username) ==> r == Err(InvalidCredentials)
      ensures forall k :: k in users && users[k].email == username ==>
                (r.Ok? <==> hasher.verify(password, users[k].hashedPassword))
      ensures r.Err? ==> r.error == InvalidCredentials
      ensures r.Ok? ==> r.value == Token(jwt.encode(LoginClaims(username, now, settings)), "bearer")
    {
      match UserByEmail(users, username)
      case None => Err(InvalidCredentials)
      case Some(user) =>
        if !hasher.verify(password, user.hashedPassword) then Err(InvalidCredentials)
        else
          var accessTokenExpires := Auth.Minutes(settings.accessTokenExpireMinutes);
          var accessToken := Auth.CreateAccessToken(
            map["sub" := Auth.Str(user.email)], Some(accessTokenExpires), now, settings, jwt);
          assert Auth.AccessClaims(map["sub" := Auth.Str(user.email)], Some(accessTokenExpires), now, settings)
              == LoginClaims(username, now, settings);
          Ok(Token(accessToken, "bearer"))
    }

    /**
     * `create_task` for the resolved `caller`. `newId` is the id the database
     * generates; `defaults` the values of the columns the request does not set.
     */
    method CreateTask(caller: UserRow, task: TaskCreate, now: Instant, newId: int, defaults: TaskDefaults)
      returns (r: Result<Task, Error>)
      requires Valid()
      requires caller.id in users
      requires newId !in tasks
      modifies this
      ensures Valid() && users == old(users)
      ensures !ValidTaskCreate(task) ==> r == Err(Unprocessable) && tasks == old(tasks)
      ensures ValidTaskCreate(task) && task.dueDate < now ==> r == Err(PastDueDate) && tasks == old(tasks)
      ensures ValidTaskCreate(task) && task.dueDate >= now ==>
                var row := Task(newId, task.title, task.description, task.dueDate,
                                defaults.isCompleted, defaults.createdAt, defaults.updatedAt, caller.id);
                && r == Ok(row)
                && tasks == old(tasks)[newId := row]
    {
      if !ValidTaskCreate(task) {
        return Err(Unprocessable);
      }
      if task.dueDate < now {
        return Err(PastDueDate);
      }
      var dbTask := Task(newId, task.title, task.description, task.dueDate,
                         defaults.isCompleted, defaults.createdAt, defaults.updatedAt, caller.id);
      tasks := tasks[newId := dbTask];
      r := Ok(dbTask);
    }

    /**
     * `read_tasks`: the caller's tasks passing the completion filter, with the
     * first `skip` dropped and at most `limit` kept. The route's defaults for
     * parameters the request leaves out are `skip = 0` and `limit = 100`;
     * `None` for `completed` means no completion filter.
     */
    function ReadTasks(caller: UserRow, skip: nat, limit: nat, completed: Option<bool>): (r: seq<Task>)
      reads this
      ensures |r| <= limit
      ensures forall t :: t in r ==>
                t in tasks.Values && t.ownerId == caller.id &&
                (completed.Some? ==> t.isCompleted == completed.value)
      ensures var all := OwnedTasks(tasks, caller.id, completed);
              && |r| == (if skip >= |all| then 0 else if |all| - skip < limit then |all| - skip else limit)
              && forall i :: 0 <= i < |r| ==> r[i] == all[skip + i]
    {
      Page(OwnedTasks(tasks, caller.id, completed), skip, limit)
    }

    /**
     * `read_task`: the task with that id if the caller owns it; a missing
     * task and another user's task give the same error.
     */
    function ReadTask(caller: UserRow, taskId: int): (r: Result<Task, Error>)
      reads this
      ensures r.Ok? <==> Owns(tasks, taskId, caller.id)
      ensures r.Ok? ==> r.value == tasks[taskId]
      ensures r.Err? ==> r.error == NotFound
    {
      if Owns(tasks, taskId, caller.id) then Ok(tasks[taskId]) else Err(NotFound)
    }

    /**
     * `update_task`: the ownership check comes before the due-date check,
     * and only the fields the client sent are written, one at a time.
     */
    method UpdateTask(caller: UserRow, taskId: int, taskUpdate: TaskUpdate, now: Instant)
      returns (r: Result<Task, Error>)
      requires Valid()
      modifies this
      ensures Valid() && users == old(users)
      ensures !ValidTaskUpdate(taskUpdate) ==> r == Err(Unprocessable) && tasks == old(tasks)
      ensures ValidTaskUpdate(taskUpdate) && !Owns(old(tasks), taskId, caller.id) ==>
                r == Err(NotFound) && tasks == old(tasks)
      ensures ValidTaskUpdate(taskUpdate) && Owns(old(tasks), taskId, caller.id) &&
              taskUpdate.dueDate.Set? && taskUpdate.dueDate.value < now ==>
                r == Err(PastDueDate) && tasks == old(tasks)
      ensures ValidTaskUpdate(taskUpdate) && Owns(old(tasks), taskId, caller.id) &&
              !(taskUpdate.dueDate.Set? && taskUpdate.dueDate.value < now) ==>
                && r == Ok(Patched(old(tasks)[taskId], taskUpdate))
                && tasks == old(tasks)[taskId := r.value]
    {
      if !ValidTaskUpdate(taskUpdate) {
        return Err(Unprocessable);
      }
      if !Owns(tasks, taskId, caller.id) {
        return Err(NotFound);
      }
      var dbTask := tasks[taskId];
      if taskUpdate.dueDate.Set? && taskUpdate.dueDate.value < now {
        return Err(PastDueDate);
      }
      var updateData := UpdateData(taskUpdate);
      var updated := SetFields(dbTask, updateData);
      ApplyUpdateDataIsPatched(dbTask, taskUpdate);
      tasks := tasks[taskId := updated];
      r := Ok(updated);
    }

    /** `delete_task`: removes the caller's task with that id and nothing else. */
    method DeleteTask(caller: UserRow, taskId: int) returns (r: Result<(), Error>)
      requires Valid()
      modifies this
      ensures Valid() && users == old(users)
      ensures !Owns(old(tasks), taskId, caller.id) ==> r == Err(NotFound) && tasks == old(tasks)
      ensures Owns(old(tasks), taskId, caller.id) ==>
                && r == Ok(())
                && tasks == old(tasks) - {taskId}
                && |tasks| == |old(tasks)| - 1
    {
      if !Owns(tasks, taskId, caller.id) {
        return Err(NotFound);
      }
      tasks := tasks - {taskId};
      r := Ok(());
    }
  }

  /** A password that verifies against its stored hash lets its user log in. */
  lemma RegisteredUserCanLogIn(store: TaskStore, id: int, email: string, password: string, salt: string,
                               isActive: bool, now: Instant, settings: Auth.Settings,
                               hasher: Auth.Hasher, jwt: Auth.Jwt)
    requires store.Valid()
    requires id in store.users && store.users[id] == UserRow(id, email, hasher.hash(password, salt), isActive)
    requires hasher.verify(password, hasher.hash(password, salt))
    ensures store.Login(email, password, now, settings, hasher, jwt)
         == Ok(Token(jwt.encode(LoginClaims(email, now, settings)), "bearer"))
  {
  }

  /**
   * Login consults the hasher only through `verify` on the stored hash: two
   * hashers that agree there give the same answer.
   */
  lemma LoginUsesOnlyVerify(store: TaskStore, username: string, password: string, now: Instant,
                            settings: Auth.Settings, h1: Auth.Hasher, h2: Auth.Hasher, jwt: Auth.Jwt)
    requires store.Valid()
    requires forall k :: k in store.users ==>
               h1.verify(password, store.users[k].hashedPassword) == h2.verify(password, store.users[k].hashedPassword)
    ensures store.Login(username, password, now, settings, h1, jwt)
         == store.Login(username, password, now, settings, h2, jwt)
  {
  }

  /**
   * The token `login` issues resolves, for as long as the token library
   * accepts it, to the very user who logged in.
   */
  lemma LoginThenAuthenticate(store: TaskStore, username: string, password: string, now: Instant,
                              settings: Auth.Settings, hasher: Auth.Hasher, jwt: Auth.Jwt)
    requires store.Valid()
    requires store.Login(username, password, now, settings, hasher, jwt).Ok?
    requires jwt.decode(jwt.encode(LoginClaims(username, now, settings))) == Some(LoginClaims(username, now, settings))
    ensures var token := store.Login(username, password, now, settings, hasher, jwt).value;
            var r := Auth.Authenticate(token.accessToken, store.users, jwt);
            && r.Ok?
            && r.value.id in store.users && store.users[r.value.id] == r.value
            && r.value.email == username
            && hasher.verify(password, r.value.hashedPassword)
  {
  }

  /** Two users' listings never share a task, whatever each of them asks for. */
  lemma ListingsAreDisjoint(store: TaskStore, a: UserRow, b: UserRow,
                            skipA: nat, limitA: nat, completedA: Option<bool>,
                            skipB: nat, limitB: nat, completedB: Option<bool>)
    requires a.id != b.id
    ensures forall t :: t in store.ReadTasks(a, skipA, limitA, completedA) ==>
                        t !in store.ReadTasks(b, skipB, limitB, completedB)
  {
  }

  /**
   * Two spellings of one address, such as `a@x.com` and `a@X.COM`, are one
   * account: after the first registers, the second is refused.
   */
  method SameAddressTwice(first: UserCreate, second: UserCreate, salt: string, hasher: Auth.Hasher,
                          normalize: EmailNormalizer)
    returns (r1: Result<User, Error>, r2: Result<User, Error>)
    requires normalize(first.email).Some? && normalize(second.email) == normalize(first.email)
    ensures r1.Ok? && r1.value.email == normalize(first.email).value
    ensures r2 == Err(AlreadyExists)
  {
    var store := new TaskStore();
    r1 := store.RegisterUser(first, 1, salt, hasher, normalize, true);
    assert store.users[1].email == normalize(first.email).value;
    r2 := store.RegisterUser(second, 2, salt, hasher, normalize, true);
  }

  /**
   * The scenario of the test suite: register, log in, create a task due in a
   * day with a description, list the tasks. Registration echoes the email,
   * login issues a bearer token that resolves to the new user, the created
   * task carries the sent title and description, and the listing holds
   * exactly that task.
   */
  method Walkthrough(hasher: Auth.Hasher, salt: string, normalize: EmailNormalizer, jwt: Auth.Jwt,
                     settings: Auth.Settings, now: Instant, defaults: TaskDefaults)
    returns (registered: Result<User, Error>, login: Result<Token, Error>,
             created: Result<Task, Error>, listed: seq<Task>)
    requires normalize("test@example.com") == Some("test@example.com")
    requires hasher.verify("testpassword", hasher.hash("testpassword", salt))
    requires jwt.decode(jwt.encode(LoginClaims("test@example.com", now, settings)))
          == Some(LoginClaims("test@example.com", now, settings))
    ensures registered.Ok? && registered.value.email == "test@example.com"
    ensures login.Ok? && login.value.tokenType == "bearer"
    ensures created.Ok? && created.value.title == "Test Task"
    ensures created.Ok? && created.value.description == Some("Test Description")
    ensures listed == [created.value]
  {
    var store := new TaskStore();
    registered := store.RegisterUser(UserCreate("test@example.com", "testpassword"), 1, salt, hasher, normalize, true);
    login := store.Login("test@example.com", "testpassword", now, settings, hasher, jwt);
    LoginThenAuthenticate(store, "test@example.com", "testpassword", now, settings, hasher, jwt);
    var caller := Auth.Authenticate(login.value.accessToken, store.users, jwt);
    var task := TaskCreate("Test Task", Some("Test Description"), now + 86400);
    created := store.CreateTask(caller.value, task, now, 1, defaults);
    listed := store.ReadTasks(caller.value, 0, 100, None);
    SingleRowListing(store.tasks, created.value, caller.value.id);
  }

  /** A table holding one task of the caller lists exactly that task. */
  lemma SingleRowListing(tasks: map<int, Task>, t: Task, ownerId: int)
    requires tasks == map[t.id := t] && t.ownerId == ownerId
    ensures OwnedTasks(tasks, ownerId, None) == [t]
  {
    var r := OwnedTasks(tasks, ownerId, None);
    assert t in r;
    assert TasksKeyedById(tasks);
    assert forall i :: 0 <= i < |r| ==> r[i] == t;
    NoRepeatedRow(r);
    assert |r| <= 1;
  }

  /** Rows in strictly ascending id order are pairwise distinct. */
  lemma NoRepeatedRow(r: seq<Task>)
    requires forall i, j :: 0 <= i < j < |r| ==> r[i].id < r[j].id
    ensures |r| >= 2 ==> r[0] != r[1]
  {
  }
}
