/** processRecord of ProcessRedisRecord.go, over a Redis store of hashes:
    a record whose IsInserted flag reads false gets the flag set and its
    fields handed once to InsertRecordInPostgress. Command failures are
    parameters; the fields are passed as stored (FetchAllValues' per-value
    type conversion never fails and is not modelled). */
module RedisRecord {

  type Hash = map<string, string>

  /** The error processRecord returns. */
  datatype RedisError = CommandError(command: string) | SyntaxError(input: string)

  datatype Status = Ok | Failed(e: RedisError)

  /** Which Redis commands fail with an error other than redis.Nil. */
  datatype Faults = Faults(existsFails: bool, hgetFails: bool, hsetFails: bool, hgetallFails: bool)

  const NoFaults := Faults(false, false, false, false)

  datatype ParseResult = Parsed(b: bool) | ParseError

  /** strconv.ParseBool. */
  function ParseBool(s: string): (r: ParseResult)
    ensures r.Parsed? ==> s != ""
  {
    if s in {"1", "t", "T", "TRUE", "true", "True"} then Parsed(true)
    else if s in {"0", "f", "F", "FALSE", "false", "False"} then Parsed(false)
    else ParseError
  }

  /** go-redis writes a Go bool as "1" or "0". */
  function BoolArg(b: bool): string
  {
    if b then "1" else "0"
  }

  lemma BoolArgRoundTrip(b: bool)
    ensures ParseBool(BoolArg(b)) == Parsed(b)
  {
  }

  /** EXISTS: a key exists when it holds a non-empty hash. */
  predicate KeyExists(h: map<string, Hash>, key: string)
  {
    key in h && h[key] != map[]
  }

  /** HGET's value, with the redis.Nil reply read as "". */
  function HGet(h: map<string, Hash>, key: string, field: string): string
  {
    if key in h && field in h[key] then h[key][field] else ""
  }

  datatype InsertCall = InsertCall(hashKey: string, details: Hash)

  /** The outcome of one processRecord call: the new store, the
      InsertRecordInPostgress calls made, and the returned error. */
  datatype Effect = Effect(hashes: map<string, Hash>, inserted: seq<InsertCall>, status: Status)

  function Process(h: map<string, Hash>, key: string, f: Faults): Effect
  {
    if f.existsFails then Effect(h, [], Failed(CommandError("EXISTS")))
    else if f.hgetFails then Effect(h, [], Failed(CommandError("HGET")))
    else
      var flag := HGet(h, key, "IsInserted");
      match ParseBool(flag)
      case ParseError => Effect(h, [], Failed(SyntaxError(flag)))
      case Parsed(true) => Effect(h, [], Ok)
      case Parsed(false) =>
        if f.hsetFails then Effect(h, [], Failed(CommandError("HSET")))
        else
          var h1 := h[key := h[key]["IsInserted" := BoolArg(true)]];
          if f.hgetallFails then Effect(h1, [], Failed(CommandError("HGETALL")))
          else Effect(h1, [InsertCall(key, h1[key])], Ok)
  }

  /** A flag that parses means the key exists, so the create branch is never
      taken: a missing key (or flag) fails in ParseBool before any write. */
  lemma CreateBranchUnreachable(h: map<string, Hash>, key: string)
    ensures ParseBool(HGet(h, key, "IsInserted")).Parsed? ==> KeyExists(h, key)
    ensures !KeyExists(h, key) ==> Process(h, key, NoFaults) == Effect(h, [], Failed(SyntaxError("")))
  {
    if ParseBool(HGet(h, key, "IsInserted")).Parsed? {
      assert "IsInserted" in h[key];
    }
  }

  /** Only the one flag of `key` can change; every other hash is untouched. */
  lemma OnlyFlagChanges(h: map<string, Hash>, key: string, f: Faults)
    ensures Process(h, key, f).hashes == h
         || (key in h && Process(h, key, f).hashes == h[key := h[key]["IsInserted" := "1"]])
    ensures |Process(h, key, f).inserted| <= 1
  {
  }

  /** A failing EXISTS or HGET is returned with nothing written. */
  lemma ReadFailureChangesNothing(h: map<string, Hash>, key: string, f: Faults)
    requires f.existsFails || f.hgetFails
    ensures Process(h, key, f).hashes == h && Process(h, key, f).inserted == []
    ensures Process(h, key, f).status.Failed?
  {
  }

  /** A flag already true means nothing is written and nothing inserted. */
  lemma TrueFlagWritesNothing(h: map<string, Hash>, key: string, f: Faults)
    requires !f.existsFails && !f.hgetFails
    requires ParseBool(HGet(h, key, "IsInserted")) == Parsed(true)
    ensures Process(h, key, f) == Effect(h, [], Ok)
  {
  }

  /** A flag that reads false, with no command failing, ends with the flag
      set and exactly one insert of the record's fields, the new flag
      among them. */
  lemma FalseFlagInsertsOnce(h: map<string, Hash>, key: string)
    requires ParseBool(HGet(h, key, "IsInserted")) == Parsed(false)
    ensures var e := Process(h, key, NoFaults);
      e.status == Ok && key in e.hashes && e.hashes[key]["IsInserted"] == "1"
      && e.inserted == [InsertCall(key, e.hashes[key])]
      && forall k :: k in e.hashes[key] && k != "IsInserted" ==> k in h[key] && e.hashes[key][k] == h[key][k]
  {
  }

  /** A run that finds the flag false sets it, and then a second run finds
      it true and does nothing. */
  lemma SecondRunIsNoOp(h: map<string, Hash>, key: string, f: Faults)
    requires !f.existsFails && !f.hgetFails && !f.hsetFails
    requires ParseBool(HGet(h, key, "IsInserted")) == Parsed(false)
    ensures HGet(Process(h, key, f).hashes, key, "IsInserted") == "1"
    ensures Process(Process(h, key, f).hashes, key, NoFaults)
         == Effect(Process(h, key, f).hashes, [], Ok)
  {
    var h1 := Process(h, key, f).hashes;
    assert HGet(h1, key, "IsInserted") == "1";
  }

  /** There is no rollback: when fetching the fields fails after the flag
      was set, the error is returned and the flag stays set. */
  lemma FetchFailureKeepsFlag(h: map<string, Hash>, key: string)
    requires ParseBool(HGet(h, key, "IsInserted")) == Parsed(false)
    ensures var e := Process(h, key, Faults(false, false, false, true));
      e.status == Failed(CommandError("HGETALL")) && e.inserted == []
      && HGet(e.hashes, key, "IsInserted") == "1"
  {
  }

  /** The Redis store as a mutable object, with the record of Postgres
      inserts made so far. */
  class RedisStore {
    var hashes: map<string, Hash>
    var inserted: seq<InsertCall>

    constructor (initial: map<string, Hash>)
      ensures hashes == initial && inserted == []
    {
      hashes := initial;
      inserted := [];
    }

    /** processRecord. */
    method ProcessRecord(hashKey: string, faults: Faults) returns (err: Status)
      modifies this
      ensures hashes == Process(old(hashes), hashKey, faults).hashes
      ensures inserted == old(inserted) + Process(old(hashes), hashKey, faults).inserted
      ensures err == Process(old(hashes), hashKey, faults).status
    {
      if faults.existsFails {
        return Failed(CommandError("EXISTS"));
      }
      var keyCount := if KeyExists(hashes, hashKey) then 1 else 0;

      if faults.hgetFails {
        return Failed(CommandError("HGET"));
      }
      var isInserted := HGet(hashes, hashKey, "IsInserted");

      var isInsertedFlag := ParseBool(isInserted);
      if isInsertedFlag.ParseError? {
        return Failed(SyntaxError(isInserted));
      }

      CreateBranchUnreachable(hashes, hashKey);
      if keyCount == 0 {
        // HMSet of a fresh record would go here; ParseBool has already
        // failed for every key that does not exist.
        assert false;
      } else if isInsertedFlag.b {
      } else {
        if faults.hsetFails {
          return Failed(CommandError("HSET"));
        }
        hashes := hashes[hashKey := hashes[hashKey]["IsInserted" := BoolArg(true)]];

        if faults.hgetallFails {
          return Failed(CommandError("HGETALL"));
        }
        var details := hashes[hashKey];
        inserted := inserted + [InsertCall(hashKey, details)];
      }
      return Ok;
    }
  }
}
