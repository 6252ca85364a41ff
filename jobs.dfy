// The coverage job life cycle of the API: a job id's status and error live in
// a key-value store whose entries expire; submitting a job writes
// `processing`, the background worker writes one terminal status, and the
// status endpoint reads it back.

module Jobs {
  import opened Text

  /** Every key is written with a time to live of one hour. */
  const Ttl: nat := 3600

  const Processing := "processing"
  const Completed := "completed"
  const Failed := "failed"

  /** A stored value and the instant (in seconds) from which it is gone. */
  datatype Entry = Entry(value: string, expiry: int)

  function StatusKey(id: string): string { id + ":status" }

  function ErrorKey(id: string): string { id + ":error" }

  predicate IsStatusKey(k: string) {
    |k| >= 7 && k[|k| - 7..] == ":status"
  }

  /** The value a read at time `now` sees: none once the entry has expired. */
  function Lookup(entries: map<string, Entry>, key: string, now: int): (v: Option<string>)
    ensures v.Some? <==> key in entries && now < entries[key].expiry
    ensures v.Some? ==> v.value == entries[key].value
  {
    if key in entries && now < entries[key].expiry then Some(entries[key].value) else None
  }

  /** Every status the store holds is one of the three the service writes. */
  predicate KnownStatuses(entries: map<string, Entry>) {
    forall k :: k in entries && IsStatusKey(k) ==> entries[k].value in {Processing, Completed, Failed}
  }

  /** An HTTP reply: a status code and the fields of its JSON body, or an
      exception that escapes the handler. */
  datatype Reply = Json(code: nat, fields: seq<(string, string)>) | Raised(error: string)

  const NoDecode := "'NoneType' object has no attribute 'decode'"

  /** `get_status`, given what the two keys hold. An empty stored status is
      falsy and so reads as absent. */
  function StatusReply(status: Option<string>, error: Option<string>): (r: Reply)
    ensures r == Json(404, [("error", "Task not found")]) <==> status.None? || status.value == ""
    ensures r.Raised? <==> status == Some(Failed) && error.None?
    ensures status.Some? && status.value != "" && status.value != Failed ==>
              r == Json(200, [("status", status.value)])
    ensures status == Some(Failed) && error.Some? ==>
              r == Json(200, [("status", Failed), ("error", error.value)])
  {
    if status.None? || status.value == "" then Json(404, [("error", "Task not found")])
    else if status.value == Completed then Json(200, [("status", Completed)])
    else if status.value == Failed then
      if error.None? then Raised(NoDecode)
      else Json(200, [("status", Failed), ("error", error.value)])
    else Json(200, [("status", status.value)])
  }

  /** The error key of an id is never a status key. */
  lemma ErrorKeyNotStatus(id: string)
    ensures !IsStatusKey(ErrorKey(id))
  {
    var k := ErrorKey(id);
    assert k[|k| - 1] == 'r';
  }

  lemma StatusKeyIsStatus(id: string)
    ensures IsStatusKey(StatusKey(id))
  {
    var k := StatusKey(id);
    assert k[|k| - 7..] == ":status";
  }

  /** The store the service talks to, with the clock as an argument of each
      call. */
  class Store {
    var entries: map<string, Entry>

    ghost predicate Valid()
      reads this
    {
      KnownStatuses(entries)
    }

    constructor ()
      ensures entries == map[] && Valid()
    {
      entries := map[];
    }

    /** SETEX: store the value with an expiry `ttl` seconds from now. */
    method SetEx(key: string, ttl: nat, value: string, now: int)
      modifies this
      ensures entries == old(entries)[key := Entry(value, now + ttl)]
    {
      entries := entries[key := Entry(value, now + ttl)];
    }

    /** `predict`: the new job's status is `processing` for an hour; the
        worker is scheduled afterwards, as a separate call of RunCoverage. */
    method Predict(id: string, now: int) returns (reply: Reply)
      requires Valid()
      modifies this
      ensures Valid()
      ensures entries == Submitted(old(entries), id, now)
      ensures reply == Json(200, [("task_id", id)])
    {
      SetEx(StatusKey(id), Ttl, Processing, now);
      reply := Json(200, [("task_id", id)]);
    }

    /** `run_coverage`, given how the prediction and the upload turned out:
        `completed` on success; on failure `failed` and the error text, after
        which the exception is raised again. */
    method RunCoverage(id: string, outcome: Result<(), string>, now: int) returns (raised: Option<string>)
      requires Valid()
      modifies this
      ensures Valid()
      ensures entries == Finished(old(entries), id, outcome, now)
      ensures raised == if outcome.Success? then None else Some(outcome.error)
    {
      StatusKeyIsStatus(id);
      ErrorKeyNotStatus(id);
      if outcome.Success? {
        SetEx(StatusKey(id), Ttl, Completed, now);
        raised := None;
      } else {
        SetEx(StatusKey(id), Ttl, Failed, now);
        SetEx(ErrorKey(id), Ttl, outcome.error, now);
        raised := Some(outcome.error);
      }
    }

    /** `get_status`: reads the store and changes nothing. */
    method GetStatus(id: string, now: int) returns (reply: Reply)
      ensures reply == Query(entries, id, now)
    {
      var status := Lookup(entries, StatusKey(id), now);
      if status.None? || status.value == "" {
        return Json(404, [("error", "Task not found")]);
      }
      var s := status.value;
      if s == Completed {
        return Json(200, [("status", Completed)]);
      } else if s == Failed {
        var error := Lookup(entries, ErrorKey(id), now);
        if error.None? {
          return Raised(NoDecode);
        }
        return Json(200, [("status", Failed), ("error", error.value)]);
      }
      return Json(200, [("status", s)]);
    }
  }

  // -------------------------------------------------- the life cycle, on maps

  /** The store after a job is submitted. */
  function Submitted(entries: map<string, Entry>, id: string, now: int): map<string, Entry> {
    entries[StatusKey(id) := Entry(Processing, now + Ttl)]
  }

  /** The store after the worker finishes. */
  function Finished(entries: map<string, Entry>, id: string, outcome: Result<(), string>, now: int): map<string, Entry> {
    if outcome.Success? then entries[StatusKey(id) := Entry(Completed, now + Ttl)]
    else entries[StatusKey(id) := Entry(Failed, now + Ttl)][ErrorKey(id) := Entry(outcome.error, now + Ttl)]
  }

  function Query(entries: map<string, Entry>, id: string, now: int): Reply {
    StatusReply(Lookup(entries, StatusKey(id), now), Lookup(entries, ErrorKey(id), now))
  }

  /** Both steps keep the store's statuses among the three known values. */
  lemma StepsKeepStatusesKnown(entries: map<string, Entry>, id: string, outcome: Result<(), string>, now: int)
    requires KnownStatuses(entries)
    ensures KnownStatuses(Submitted(entries, id, now))
    ensures KnownStatuses(Finished(entries, id, outcome, now))
  {
    ErrorKeyNotStatus(id);
  }

  /** Within the hour after submission the job reads as `processing`; from
      then on it is not found, unless the worker wrote again. */
  lemma QueryAfterSubmit(entries: map<string, Entry>, id: string, now: int, later: int)
    requires now <= later
    ensures later < now + Ttl ==> Query(Submitted(entries, id, now), id, later) == Json(200, [("status", Processing)])
    ensures later >= now + Ttl ==> Query(Submitted(entries, id, now), id, later) == Json(404, [("error", "Task not found")])
  {
  }

  /** Within the hour after the worker finishes, a success reads as
      `completed` alone and a failure as `failed` with the error text; after
      it, the job is not found. */
  lemma QueryAfterFinish(entries: map<string, Entry>, id: string, outcome: Result<(), string>, now: int, later: int)
    requires now <= later
    ensures later < now + Ttl && outcome.Success? ==>
              Query(Finished(entries, id, outcome, now), id, later) == Json(200, [("status", Completed)])
    ensures later < now + Ttl && outcome.Failure? ==>
              Query(Finished(entries, id, outcome, now), id, later)
                == Json(200, [("status", Failed), ("error", outcome.error)])
    ensures later >= now + Ttl ==>
              Query(Finished(entries, id, outcome, now), id, later) == Json(404, [("error", "Task not found")])
  {
    StatusKeyIsStatus(id);
    ErrorKeyNotStatus(id);
    assert StatusKey(id) != ErrorKey(id);
  }

  /** In a store whose statuses are the known ones, the status endpoint never
      echoes anything but `processing`, and raises only for a failure whose
      error has gone. */
  lemma QueryReplies(entries: map<string, Entry>, id: string, now: int)
    requires KnownStatuses(entries)
    ensures var r := Query(entries, id, now);
            || r == Json(404, [("error", "Task not found")])
            || r == Json(200, [("status", Processing)])
            || r == Json(200, [("status", Completed)])
            || (r.Json? && r.fields[0] == ("status", Failed))
            || (r == Raised(NoDecode) && Lookup(entries, ErrorKey(id), now).None?)
  {
    StatusKeyIsStatus(id);
  }
}
