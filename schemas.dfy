/**
 * The request and response records of the API and the field constraints
 * the schema layer enforces before a handler runs.
 */
module Schemas {
  import opened Wrappers

  /** A point in time, in whole seconds. */
  type Instant = int

  /** A field of a partial update: left out of the request, or given a value. */
  datatype Field<+T> = Unset | Set(value: T)

  /**
   * What the `EmailStr` type makes of an address before a handler sees it:
   * its normal form (surrounding space stripped, a `Name <addr>` form reduced
   * to `addr`, the domain lower-cased), or `None` when the address is refused,
   * which the schema layer answers with a 422. The validating library is not
   * modelled; the function is supplied by the caller.
   */
  type EmailNormalizer = string -> Option<string>

  /** Registration request: `UserBase.email`, as sent, plus the plaintext password. */
  datatype UserCreate = UserCreate(email: string, password: string)

  /** The user as returned to clients: there is no password or hash field. */
  datatype User = User(id: int, email: string, isActive: bool)

  /** The login response. */
  datatype Token = Token(accessToken: string, tokenType: string)

  /** What identity resolution extracts from a token's claims. */
  datatype TokenData = TokenData(email: Option<string>)

  /** `TaskBase` and `TaskCreate` (which adds nothing to it). */
  datatype TaskCreate = TaskCreate(title: string, description: Option<string>, dueDate: Instant)

  /** Every field optional; only the fields the client sent are `Set`. */
  datatype TaskUpdate = TaskUpdate(
    title: Field<string>,
    description: Field<Option<string>>,
    dueDate: Field<Instant>,
    isCompleted: Field<bool>)

  /** The stored task, and the task as returned to clients. */
  datatype Task = Task(
    id: int,
    title: string,
    description: Option<string>,
    dueDate: Instant,
    isCompleted: bool,
    createdAt: Instant,
    updatedAt: Instant,
    ownerId: int)

  /** `Field(..., min_length=1)`: a title has at least one character. */
  predicate ValidTitle(title: string): (ok: bool)
    ensures ok <==> title != ""
  {
    |title| >= 1
  }

  /** A create request is accepted exactly when its title is not empty. */
  predicate ValidTaskCreate(t: TaskCreate): (ok: bool)
    ensures ok <==> t.title != ""
  {
    ValidTitle(t.title)
  }

  /** The length bound applies only to a title that was sent. */
  predicate ValidTaskUpdate(u: TaskUpdate): (ok: bool)
    ensures ok <==> u.title == Unset || u.title.value != ""
    ensures u.title == Unset ==> ok
  {
    u.title.Set? ==> ValidTitle(u.title.value)
  }

  /** The `Task` response inherits the title constraint of `TaskBase`. */
  predicate ValidTask(t: Task)
  {
    ValidTitle(t.title)
  }

  /** One entry of the dump of the sent fields only: a field name with its value. */
  datatype FieldValue =
    | TitleIs(title: string)
    | DescriptionIs(description: Option<string>)
    | DueDateIs(dueDate: Instant)
    | CompletedIs(isCompleted: bool)

  /** Position of a field in the declaration order of `TaskUpdate`. */
  function Position(f: FieldValue): (p: nat)
    ensures p < 4
  {
    match f
    case TitleIs(_) => 0
    case DescriptionIs(_) => 1
    case DueDateIs(_) => 2
    case CompletedIs(_) => 3
  }

  /** Whether `f` is one of the values the client sent in `u`. */
  predicate SentIn(u: TaskUpdate, f: FieldValue)
  {
    match f
    case TitleIs(x) => u.title == Set(x)
    case DescriptionIs(x) => u.description == Set(x)
    case DueDateIs(x) => u.dueDate == Set(x)
    case CompletedIs(x) => u.isCompleted == Set(x)
  }

  function SentCount(u: TaskUpdate): nat
  {
    (if u.title.Set? then 1 else 0) + (if u.description.Set? then 1 else 0) +
    (if u.dueDate.Set? then 1 else 0) + (if u.isCompleted.Set? then 1 else 0)
  }

  /**
   * `update_data`: the sent fields, each once, in declaration order; unset
   * fields are absent.
   */
  function UpdateData(u: TaskUpdate): (items: seq<FieldValue>)
    ensures |items| == SentCount(u)
    ensures forall i :: 0 <= i < |items| ==> SentIn(u, items[i])
    ensures forall i, j :: 0 <= i < j < |items| ==> Position(items[i]) < Position(items[j])
  {
    (if u.title.Set? then [TitleIs(u.title.value)] else []) +
    ((if u.description.Set? then [DescriptionIs(u.description.value)] else []) +
     ((if u.dueDate.Set? then [DueDateIs(u.dueDate.value)] else []) +
      (if u.isCompleted.Set? then [CompletedIs(u.isCompleted.value)] else [])))
  }
}
