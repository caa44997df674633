/** Register as code, run by one caller: the early exits, the row, and the cache task. */
module UserServiceCode {
  import opened RegisterModel
  import opened UserKeys

  /** Both directions live for 24 hours, in nanoseconds. */
  const CACHE_TTL: int := 86_400_000_000_000

  datatype CacheEntry = CacheEntry(value: string, ttl: int)

  class UserService {
    var rows: seq<Row>
    var tasks: seq<Task>
    var cache: map<string, CacheEntry>
    var locked: bool

    /** Emails and IDs are unique in the table, and the tasks repeat it. */
    ghost predicate Valid()
      reads this
    {
      && !locked
      && (forall i, j :: 0 <= i < j < |rows| ==> rows[i].email != rows[j].email && rows[i].id != rows[j].id)
      && (forall t :: 0 <= t < |tasks| ==> Row(tasks[t].id, tasks[t].email) in rows)
    }

    constructor ()
      ensures Valid() && rows == [] && tasks == [] && cache == map[]
    {
      rows, tasks, cache, locked := [], [], map[], false;
    }

    /** Asks the table for the count of rows with this email; an error answers false. */
    method CheckEmailExist(email: string, fate: Fate) returns (found: bool, failed: bool)
      ensures failed <==> fate != Works
      ensures found <==> !failed && exists i :: 0 <= i < |rows| && rows[i].email == email
    {
      if fate != Works {
        return false, true;
      }
      var matching := set i | 0 <= i < |rows| && rows[i].email == email;
      assert forall i :: 0 <= i < |rows| && rows[i].email == email ==> i in matching;
      return |matching| > 0, false;
    }

    /** Register of service/user/user_service.go. A row appears exactly when the Create took
        effect, with the call's email and ID; the other codes leave the table alone, except
        that an error may come after the row was committed. If the submit panics there is
        no response, but the row stays and the mutex is free. */
    method Register(req: Request, newId: string, check: Fate, hash: Fate, create: Fate, submit: Fate)
      returns (code: Code, id: string)
      requires Valid()
      requires forall i :: 0 <= i < |rows| ==> rows[i].id != newId
      requires Panics !in {check, hash, create}
      modifies this
      ensures Valid() && cache == old(cache)
      ensures code == PARAM_INVALID <==> req.username == "" || req.password == "" || req.email == ""
      ensures code == USER_EXIST <==>
                (code != PARAM_INVALID && check == Works
                 && exists i :: 0 <= i < |old(rows)| && old(rows)[i].email == req.email)
      ensures code == SUCCESS || code == UNWOUND <==>
                (code != PARAM_INVALID && code != USER_EXIST && check == Works && hash == Works && create == Works)
      ensures code == UNWOUND ==> submit == Panics
      ensures code == SUCCESS ==> id == newId && submit != Panics
      ensures rows == if code == SUCCESS || code == UNWOUND
                         || (code == SYSTEM_ERROR && check == Works && hash == Works && create == FailsAfterCommit)
                      then old(rows) + [Row(newId, req.email)] else old(rows)
      ensures tasks == if code == SUCCESS && submit == Works
                       then old(tasks) + [Task(newId, req.email, SetId)] else old(tasks)
    {
      if req.username == "" || req.password == "" || req.email == "" {
        return PARAM_INVALID, "";
      }
      locked := true;
      code, id := RegisterLocked(req, newId, check, hash, create, submit);
      locked := false;
    }

    /** What Register does while it holds the mutex of the email. */
    method RegisterLocked(req: Request, newId: string, check: Fate, hash: Fate, create: Fate, submit: Fate)
      returns (code: Code, id: string)
      requires locked && Panics !in {check, hash, create}
      modifies this`rows, this`tasks
      ensures code in {SYSTEM_ERROR, USER_EXIST, SUCCESS, UNWOUND}
      ensures code == USER_EXIST <==>
                check == Works && exists i :: 0 <= i < |old(rows)| && old(rows)[i].email == req.email
      ensures code == SUCCESS || code == UNWOUND
              <==> code != USER_EXIST && check == Works && hash == Works && create == Works
      ensures code == UNWOUND ==> submit == Panics
      ensures code == SUCCESS ==> id == newId && submit != Panics
      ensures rows == if code != USER_EXIST && check == Works && hash == Works && create != Fails
                      then old(rows) + [Row(newId, req.email)] else old(rows)
      ensures tasks == if code == SUCCESS && submit == Works
                       then old(tasks) + [Task(newId, req.email, SetId)] else old(tasks)
    {
      var emailExists, failed := CheckEmailExist(req.email, check);
      if failed {
        return SYSTEM_ERROR, "";
      }
      if emailExists {
        return USER_EXIST, "";
      }
      if hash != Works {
        return SYSTEM_ERROR, "";
      }
      if create != Fails {
        rows := rows + [Row(newId, req.email)];
      }
      if create != Works {
        return SYSTEM_ERROR, "";
      }
      if submit == Panics {
        return UNWOUND, "";
      }
      if submit == Works {
        tasks := tasks + [Task(newId, req.email, SetId)];
      }
      return SUCCESS, newId;
    }

    /** SetUserCache of utils/redis/redis.go: a pipeline of two SETs. Each direction is
        written under its own key, so neither can overwrite the other. */
    method SetUserCache(userID: string, email: string, first: bool, second: bool)
      modifies this`cache
      ensures forall key :: key in cache && (key !in old(cache) || cache[key] != old(cache)[key]) ==>
                (first && key == IdKey(email)) || (second && key == EmailKey(userID))
      ensures first ==> IdKey(email) in cache && cache[IdKey(email)] == CacheEntry(userID, CACHE_TTL)
      ensures second ==> EmailKey(userID) in cache && cache[EmailKey(userID)] == CacheEntry(email, CACHE_TTL)
      ensures old(cache).Keys <= cache.Keys
    {
      hide ReplaceKey;
      var key1, key2 := IdKey(email), EmailKey(userID);
      KeysAreApart(email, userID);
      if first {
        cache := cache[key1 := CacheEntry(userID, CACHE_TTL)];
      }
      if second {
        cache := cache[key2 := CacheEntry(email, CACHE_TTL)];
      }
    }
  }
}
