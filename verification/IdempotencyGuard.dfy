/** The exactly-once guard in the source's form, over all keys. */
module IdempotencyGuard {
  import opened Wrappers
  import opened Idempotency

  class Guard {
    var records: map<string, Record>
    var landed: map<string, nat>

    constructor ()
      ensures forall key :: At(key) == START
    {
      records, landed := map[], map[];
    }

    function At(key: string): World
      reads this
    {
      World(if key in records then Some(records[key]) else None, if key in landed then landed[key] else 0)
    }

    /** Commits a new state of the record. */
    method Commit(key: string, record: Record)
      modifies this`records
      ensures records == old(records)[key := record]
    {
      records := records[key := record];
    }

    /** Runs the operation; `raised` and `crashed` say how it ended. */
    method Perform(key: string, c: Call) returns (crashed: bool)
      modifies this`landed
      ensures crashed <==> c.crash.InOperation?
      ensures landed == old(landed)[key := old(At(key)).landed +
        if c.crash.InOperation? then (if c.crash.landed then 1 else 0) else Landed(c.op)]
    {
      var times := if c.crash.InOperation? then (if c.crash.landed then 1 else 0) else Landed(c.op);
      landed := landed[key := At(key).landed + times];
      crashed := c.crash.InOperation?;
    }

    method RunOnce(key: string, c: Call) returns (outcome: Outcome)
      modifies this
      ensures Ran(At(key), outcome) == Idempotency.RunOnce(old(At(key)), c)
      ensures forall other :: other != key ==> At(other) == old(At(other))
    {
      if c.crash.BeforeClaim? {
        return Crashed;
      }
      var claimed := key !in records;
      if claimed {
        Commit(key, Record(c.digest, InProgress, None));
      } else {
        var existing := records[key];
        if existing.digest != c.digest {
          return ConflictError;
        }
        if existing.state == Completed {
          return Replayed(Or(existing.response));
        }
        if existing.state == Failed {
          Commit(key, existing.(state := InProgress));
        } else {
          if c.hook.NoHook? {
            return InProgressError;
          }
          if c.hook.HookRaises? {
            return HookError;
          }
          if c.hook.answer.Some? {
            if c.crash.BeforeWork? || c.crash.BeforeLastCommit? {
              return Crashed;
            }
            Commit(key, existing.(state := Completed, response := c.hook.answer));
            return Replayed(c.hook.answer.value);
          }
        }
      }
      if c.crash.BeforeWork? {
        return Crashed;
      }
      var record := records[key];
      var crashed := Perform(key, c);
      if crashed || c.crash.BeforeLastCommit? {
        return Crashed;
      }
      if c.op.OpRaises? {
        Commit(key, record.(state := Failed));
        return OperationError;
      }
      Commit(key, record.(state := Completed, response := Some(Wrap(c.op.value))));
      outcome := Fresh(c.op.value);
    }
  }
}
