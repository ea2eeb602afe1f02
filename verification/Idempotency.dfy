/** Idempotency records (app/services/idempotency_service.py): kept in Redis for a day and in process memory. */
module Idempotency {
  import opened Wrappers
  import opened Redis
  import opened Api
  import opened Keys
  import opened RedisServer

  const REPLAY_WINDOW := 86400

  type Records = map<string, Record>

  /** Outcome of a lookup; `Mismatch` is the HTTP 422. */
  datatype Saved = Nothing | Replay(response: CreateResponse) | Mismatch

  /** `not data_str` */
  predicate Falsy(data: Option<Blob>) {
    data == None || data.value == Text("")
  }

  /** The record a lookup finds: Redis first, process memory when Redis has nothing or fails. Text in Redis that does not
      parse hides the record in memory. */
  function FoundRecord(strings: Strings, records: Records, key: string, get: Call): Option<Record> {
    var storageKey := IdempotencyKey(key);
    var data := if get.Reply? then Fetched(strings, storageKey, get.at) else None;
    if Falsy(data) && storageKey in records then Some(records[storageKey])
    else if !Falsy(data) && data.value.Json? then Some(data.value.record)
    else None
  }

  function SavedResponse(strings: Strings, records: Records, key: string, digest: Digest, get: Call): Saved {
    match FoundRecord(strings, records, key, get)
    case None => Nothing
    case Some(record) => if record.payload_hash != digest then Mismatch else Replay(record.response_data)
  }

  /** A record that process memory holds is missed exactly if Redis answers with text that is no record. */
  lemma UnreadableHidesMemory(strings: Strings, records: Records, key: string, get: Call)
    requires IdempotencyKey(key) in records
    ensures FoundRecord(strings, records, key, get) == None <==>
            get.Reply? && exists text :: text != "" && Fetched(strings, IdempotencyKey(key), get.at) == Some(Text(text))
  {
    match Fetched(strings, IdempotencyKey(key), get.at)
    case Some(Text(text)) => assert Fetched(strings, IdempotencyKey(key), get.at) == Some(Text(text));
    case _ =>
  }

  class IdempotencyService {
    const redis: RedisServer
    var records: Records

    constructor (redis: RedisServer)
      ensures this.redis == redis && records == map[]
    {
      this.redis := redis;
      records := map[];
    }

    /** `get_saved_response` */
    method GetSavedResponse(key: string, digest: Digest, get: Call) returns (r: Saved)
      ensures r == SavedResponse(redis.strings, records, key, digest, get)
    {
      var storageKey := IdempotencyKey(key);
      var data: Option<Blob> := None;
      var got := redis.Get(storageKey, get);
      if got.Success? {
        data := got.value;
      }
      var record: Option<Record>;
      if Falsy(data) && storageKey in records {
        record := Some(records[storageKey]);
      } else if !Falsy(data) {
        record := if data.value.Json? then Some(data.value.record) else None;
      } else {
        record := None;
      }
      if record == None {
        return Nothing;
      }
      if record.value.payload_hash != digest {
        return Mismatch;
      }
      return Replay(record.value.response_data);
    }

    /** `store_response`: Redis as far as it works, then always process memory. */
    method StoreResponse(key: string, digest: Digest, response: CreateResponse, save: Call)
      modifies this`records, redis`strings
      ensures
        var storageKey, record := IdempotencyKey(key), Record(digest, 201, response);
        && records == old(records)[storageKey := record]
        && redis.strings ==
           if Applied(save) then Stored(old(redis.strings), storageKey, Json(record), REPLAY_WINDOW, save.at)
           else old(redis.strings)
    {
      var storageKey, record := IdempotencyKey(key), Record(digest, 201, response);
      var _ := redis.Set(storageKey, Json(record), REPLAY_WINDOW, save);
      records := records[storageKey := record];
    }
  }
}
