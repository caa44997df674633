/** Concurrent Register calls under the sharded mutexes of their processes, the user table
    they share, and the cache tasks they leave behind. */
module RegisterModel {
  import opened UserKeys

  datatype Request = Request(username: string, password: string, email: string)

  /** UNWOUND is no response at all: a panic has left the call. */
  datatype Code = PARAM_INVALID | SYSTEM_ERROR | USER_EXIST | SUCCESS | UNWOUND

  /** What a database, hash or pool operation does: work, fail without effect, commit and
      still report an error, or panic, which only a submit to a closing pool does. */
  datatype Fate = Works | Fails | FailsAfterCommit | Panics

  /** A row of the user table. */
  datatype Row = Row(id: string, email: string)

  datatype CallPc =
    | Validate
    | AcquireShard
    | CheckEmail
    | HashPassword
    | DrawId
    | Create(id: string)
    | SubmitTask(id: string)
    | ReleaseShard(code: Code, id: string)
    | Returned(code: Code, id: string)

  datatype Call = Call(process: nat, req: Request, pc: CallPc)

  /** A pipelined SetUserCache: two SETs, each of which may be executed or not. */
  datatype TaskPc = SetId | SetEmail | Ended

  datatype Task = Task(id: string, email: string, pc: TaskPc)

  /** A mutex is named by its process and its position in the shard array. */
  datatype Shard = Shard(process: nat, index: nat)

  /** drawnBy is history: the call that drew a user ID. clashes counts the Creates that were
      attempted for an email already in the table. */
  datatype World = World(
    locks: map<Shard, nat>,
    rows: seq<Row>,
    calls: seq<Call>,
    tasks: seq<Task>,
    cache: map<string, string>,
    drawnBy: map<string, nat>,
    clashes: nat)

  datatype Step =
    | Arrive(process: nat, req: Request)
    | StepCall(c: nat, fate: Fate, newId: string)
    | StepTask(t: nat, executed: bool)
    | DropTask(t: nat)
    | Expire(key: string)

  /** The hash function and the number of shards; both are the same in every process. */
  datatype Sharding = Sharding(hash: string -> nat, num: nat)

  /** getLock: hash modulo the number of shards. */
  function ShardOf(sh: Sharding, process: nat, email: string): Shard
    requires 0 < sh.num
  {
    Shard(process, sh.hash(email) % sh.num)
  }

  function ShardOfCall(sh: Sharding, call: Call): Shard
    requires 0 < sh.num
  {
    ShardOf(sh, call.process, call.req.email)
  }

  function Init(): World {
    World(map[], [], [], [], map[], map[], 0)
  }

  predicate Stored(s: World, email: string) {
    exists i :: 0 <= i < |s.rows| && s.rows[i].email == email
  }

  predicate Enabled(sh: Sharding, s: World, step: Step)
    requires 0 < sh.num
  {
    match step
    case StepCall(c, fate, newId) =>
      && c < |s.calls|
      && (fate.Panics? ==> s.calls[c].pc.SubmitTask?)
      && match s.calls[c].pc {
        case AcquireShard => ShardOfCall(sh, s.calls[c]) !in s.locks
        case DrawId => newId !in s.drawnBy
        case Returned(_, _) => false
        case _ => true
      }
    case StepTask(t, _) => t < |s.tasks| && !s.tasks[t].pc.Ended?
    case DropTask(t) => t < |s.tasks|
    case _ => true
  }

  /** The control flow of Register. */
  function NextPc(s: World, call: Call, fate: Fate, newId: string): CallPc {
    match call.pc
    case Validate =>
      if call.req.username == "" || call.req.password == "" || call.req.email == ""
      then Returned(PARAM_INVALID, "") else AcquireShard
    case AcquireShard => CheckEmail
    case CheckEmail =>
      if fate != Works then ReleaseShard(SYSTEM_ERROR, "")
      else if Stored(s, call.req.email) then ReleaseShard(USER_EXIST, "")
      else HashPassword
    case HashPassword => if fate != Works then ReleaseShard(SYSTEM_ERROR, "") else DrawId
    case DrawId => Create(newId)
    case Create(id) =>
      // the email column is unique
      if Stored(s, call.req.email) || fate != Works then ReleaseShard(SYSTEM_ERROR, "") else SubmitTask(id)
    // a panic runs the deferred Unlock too
    case SubmitTask(id) => ReleaseShard(if fate.Panics? then UNWOUND else SUCCESS, id)
    case ReleaseShard(code, id) => Returned(code, id)
    case Returned(code, id) => call.pc
  }

  function CallNext(sh: Sharding, s: World, c: nat, fate: Fate, newId: string): World
    requires 0 < sh.num && c < |s.calls|
  {
    var call := s.calls[c];
    var email := call.req.email;
    var creates := call.pc.Create? && !Stored(s, email) && fate != Fails;
    s.(calls := s.calls[c := call.(pc := NextPc(s, call, fate, newId))],
       locks := if call.pc.AcquireShard? then s.locks[ShardOfCall(sh, call) := c]
                else if call.pc.ReleaseShard? then s.locks - {ShardOfCall(sh, call)}
                else s.locks,
       drawnBy := if call.pc.DrawId? then s.drawnBy[newId := c] else s.drawnBy,
       rows := if creates then s.rows + [Row(call.pc.id, email)] else s.rows,
       clashes := s.clashes + if call.pc.Create? && Stored(s, email) then 1 else 0,
       tasks := if call.pc.SubmitTask? && fate == Works then s.tasks + [Task(call.pc.id, email, SetId)] else s.tasks)
  }

  function TaskNext(s: World, t: nat, executed: bool): World
    requires t < |s.tasks|
  {
    var task := s.tasks[t];
    match task.pc
    case SetId =>
      s.(tasks := s.tasks[t := task.(pc := SetEmail)],
         cache := if executed then s.cache[IdKey(task.email) := task.id] else s.cache)
    case SetEmail =>
      s.(tasks := s.tasks[t := task.(pc := Ended)],
         cache := if executed then s.cache[EmailKey(task.id) := task.email] else s.cache)
    case Ended => s
  }

  function Apply(sh: Sharding, s: World, step: Step): World
    requires 0 < sh.num && Enabled(sh, s, step)
  {
    match step
    case Arrive(process, req) => s.(calls := s.calls + [Call(process, req, Validate)])
    case StepCall(c, fate, newId) => CallNext(sh, s, c, fate, newId)
    case StepTask(t, executed) => TaskNext(s, t, executed)
    case DropTask(t) => s.(tasks := s.tasks[t := s.tasks[t].(pc := Ended)])
    case Expire(key) => s.(cache := s.cache - {key})
  }

  predicate CanRun(sh: Sharding, steps: seq<Step>)
    requires 0 < sh.num
    decreases |steps|, 0
  {
    steps == []
    || (CanRun(sh, steps[..|steps| - 1]) && Enabled(sh, After(sh, steps[..|steps| - 1]), steps[|steps| - 1]))
  }

  function After(sh: Sharding, steps: seq<Step>): World
    requires 0 < sh.num && CanRun(sh, steps)
    decreases |steps|, 1
  {
    if steps == [] then Init() else Apply(sh, After(sh, steps[..|steps| - 1]), steps[|steps| - 1])
  }
}
