/** The heartbeat registry (internal/heartbeat/heartbeat.go). */
module Heartbeat {
  import opened Text
  import opened Check
  import opened Sorting

  const MAX_TIMEOUT: int := 86_400_000_000_000  // 24h in nanoseconds
  const RESULT_PREFIX: string := "heartbeat:"

  datatype Beat = Beat(lastSeen: int, timeout: int)

  type Keys = map<string, Beat>

  predicate KeyChar(c: char) {
    'A' <= c <= 'Z' || 'a' <= c <= 'z' || '0' <= c <= '9' || c in "._:-"
  }

  predicate ValidKey(key: string) {
    1 <= |key| <= 128 && forall i :: 0 <= i < |key| ==> KeyChar(key[i])
  }

  // 1 to 128 characters whose codes are those of the digits and the colon, of the upper-case and the
  // lower-case letters, and of the hyphen, the dot and the underscore.
  predicate NameLike(key: string) {
    key != "" && |key| <= 128 && forall c :: c in key ==> NameCode(c as int)
  }

  predicate NameCode(n: int) {
    48 <= n <= 58 || 65 <= n <= 90 || 97 <= n <= 122 || n in {45, 46, 95}
  }

  lemma ValidKeysAreNameLike(key: string)
    ensures ValidKey(key) <==> NameLike(key)
  {
    assert forall c: char :: KeyChar(c) <==> NameCode(c as int);
    hide KeyChar, NameCode;
    if ValidKey(key) {
      forall c | c in key ensures NameCode(c as int) { var i :| 0 <= i < |key| && key[i] == c; }
    }
    if NameLike(key) {
      forall i | 0 <= i < |key| ensures KeyChar(key[i]) { assert key[i] in key; }
    }
  }

  // A decoded request body; an unparsable duration is None.
  datatype Body = Oversized | Malformed | Ping(key: string, timeout: Option<int>)

  datatype Response = Unauthorized | TooLarge | BadRequest | NoContent

  function Answer(authorized: bool, body: Body): Response {
    if !authorized then Unauthorized
    else
      match body
      case Oversized => TooLarge
      case Malformed => BadRequest
      case Ping(key, timeout) =>
        if ValidKey(key) && timeout.Some? && 0 < timeout.value <= MAX_TIMEOUT then NoContent else BadRequest
  }

  function Judge(key: string, beat: Beat, now: int): Result {
    Result(RESULT_PREFIX + key, if now - beat.lastSeen > beat.timeout then Crit else OK, "", ["heartbeat"])
  }

  // What a client's result says: crit past the deadline, ok until then.
  predicate TellsOf(key: string, beat: Beat, now: int, r: Result) {
    && r.check == "heartbeat:" + key && r.tags == ["heartbeat"]
    && r.status == if now > beat.lastSeen + beat.timeout then Crit else OK
  }

  lemma EvaluationTells(keys: Keys, now: int, out: seq<Result>)
    requires IsEvaluation(keys, now, out)
    ensures forall r :: r in out ==> exists key :: key in keys && TellsOf(key, keys[key], now, r)
    ensures DictionaryOrder(out)
  {
    OrderedByDictionary(out);
    forall r | r in out ensures exists key :: key in keys && TellsOf(key, keys[key], now, r) {
      var key :| key in keys && r == Judge(key, keys[key], now);
      assert TellsOf(key, keys[key], now, r);
    }
  }

  // One result per tracked key, in strict name order.
  ghost predicate IsEvaluation(keys: Keys, now: int, out: seq<Result>) {
    && ByName(out)
    && (forall key :: key in keys ==> Judge(key, keys[key], now) in out)
    && (forall r :: r in out ==> exists key :: key in keys && r == Judge(key, keys[key], now))
  }

  lemma EvaluationUnique(keys: Keys, now: int, out1: seq<Result>, out2: seq<Result>)
    requires IsEvaluation(keys, now, out1) && IsEvaluation(keys, now, out2)
    ensures out1 == out2
  {
    ListingUnique(out1, out2);
  }

  lemma PrefixInjective(k1: string, k2: string)
    ensures RESULT_PREFIX + k1 == RESULT_PREFIX + k2 <==> k1 == k2
  {
    assert (RESULT_PREFIX + k1)[|RESULT_PREFIX|..] == k1;
    assert (RESULT_PREFIX + k2)[|RESULT_PREFIX|..] == k2;
  }

  class Registry {
    const token: string
    var keys: Keys

    constructor (token: string)
      ensures this.token == token && keys == map[]
    {
      this.token := token;
      keys := map[];
    }

    predicate Authorized(header: string) {
      token == "" || header == "Bearer " + token
    }

    // `now` is the clock read while the lock is held.
    method ServePing(header: string, body: Body, now: int) returns (response: Response)
      modifies this`keys
      ensures response == Answer(Authorized(header), body)
      ensures response == Unauthorized <==> token != "" && header != "Bearer " + token
      ensures response == TooLarge ==> body.Oversized?
      ensures response == NoContent <==>
        && (token == "" || header == "Bearer " + token) && body.Ping? && NameLike(body.key)
        && body.timeout.Some? && 0 < body.timeout.value <= 86_400_000_000_000
      ensures response != Unauthorized && body.Oversized? ==> response == TooLarge
      ensures keys == if response == NoContent then old(keys)[body.key := Beat(now, body.timeout.value)] else old(keys)
    {
      hide ValidKey, NameLike;
      if !Authorized(header) { return Unauthorized; }
      if body.Ping? { ValidKeysAreNameLike(body.key); }
      match body {
        case Oversized => return TooLarge;
        case Malformed => return BadRequest;
        case Ping(key, timeout) =>
          if !ValidKey(key) { return BadRequest; }
          if timeout.None? { return BadRequest; }
          if timeout.value <= 0 || timeout.value > MAX_TIMEOUT { return BadRequest; }
          keys := keys[key := Beat(now, timeout.value)];
          response := NoContent;
      }
    }

    // `now` was read before the lock was taken; the keys come in whatever order the map yields.
    method Results(now: int) returns (out: seq<Result>)
      ensures IsEvaluation(keys, now, out)
      ensures |out| == |keys|
      ensures forall r :: r in out ==> exists key :: key in keys && TellsOf(key, keys[key], now, r)
      ensures DictionaryOrder(out)
    {
      hide TellsOf;
      hide Lists, Judge, SortByCheck, IsEvaluation;
      ListsNone(keys, now);
      out := [];
      var todo := keys.Keys;
      ghost var done: set<string> := {};
      while todo != {}
        invariant todo !! done && todo + done == keys.Keys
        invariant Lists(keys, done, now, out)
        decreases todo
      {
        var key :| key in todo;
        ListsGrow(keys, done, now, out, key);
        out := out + [Judge(key, keys[key], now)];
        todo, done := todo - {key}, done + {key};
      }
      SortedListing(keys, now, out);
      out := SortByCheck(out);
      EvaluationTells(keys, now, out);
    }
  }

  // The results of a set of keys, one each, in any order.
  ghost predicate Lists(keys: Keys, done: set<string>, now: int, out: seq<Result>)
    requires done <= keys.Keys
  {
    && |out| == |done|
    && (forall key :: key in done ==> Judge(key, keys[key], now) in out)
    && (forall r :: r in out ==> exists key :: key in done && r == Judge(key, keys[key], now))
    && Distinct(out)
  }

  lemma ListsNone(keys: Keys, now: int)
    ensures Lists(keys, {}, now, [])
  {
  }

  lemma ListsGrow(keys: Keys, done: set<string>, now: int, out: seq<Result>, key: string)
    requires done <= keys.Keys && key in keys && key !in done && Lists(keys, done, now, out)
    ensures Lists(keys, done + {key}, now, out + [Judge(key, keys[key], now)])
  {
    var r := Judge(key, keys[key], now);
    forall x | x in out ensures x.check != r.check {
      var other :| other in done && x == Judge(other, keys[other], now);
      PrefixInjective(other, key);
    }
    hide Judge;
    var more := out + [r];
    assert r in more;
    forall k | k in done + {key} ensures Judge(k, keys[k], now) in more {
      if k != key { assert Judge(k, keys[k], now) in out; }
    }
    forall x | x in more ensures exists k :: k in done + {key} && x == Judge(k, keys[k], now) {
      if x in out {
        var k :| k in done && x == Judge(k, keys[k], now);
        assert k in done + {key};
      } else {
        assert key in done + {key};
      }
    }
  }

  lemma SortedListing(keys: Keys, now: int, out: seq<Result>)
    requires Lists(keys, keys.Keys, now, out)
    ensures IsEvaluation(keys, now, SortByCheck(out)) && |SortByCheck(out)| == |keys|
  {
    hide Judge, SortByCheck;
    SortSorts(out);
    assert |multiset(SortByCheck(out))| == |multiset(out)|;
    forall r ensures r in SortByCheck(out) <==> r in out {
      assert r in multiset(SortByCheck(out)) <==> r in multiset(out);
    }
  }

  // --- Soundness although the clock is read before the lock ---------------------------------

  // A recorded ping, with the clock its handler read under the lock.
  datatype Record = Record(key: string, timeout: int, at: int)

  function Recorded(log: seq<Record>): Keys {
    if log == [] then map[]
    else
      var last := log[|log| - 1];
      Recorded(log[..|log| - 1])[last.key := Beat(last.at, last.timeout)]
  }

  // Pings are logged in lock order by a clock that never goes back; the evaluation read its own
  // clock when `early` of them had been recorded, and holds the lock after all of them.
  predicate LoggedAround(log: seq<Record>, now: int, early: nat) {
    && early <= |log|
    && (forall i, j :: 0 <= i < j < |log| ==> log[i].at <= log[j].at)
    && (forall i :: 0 <= i < early ==> log[i].at <= now)
    && (forall i :: early <= i < |log| ==> now <= log[i].at)
    && (forall i :: 0 <= i < |log| ==> log[i].timeout > 0)
  }

  lemma {:induction false} LatestBeat(log: seq<Record>, key: string) returns (i: nat)
    requires key in Recorded(log)
    ensures i < |log| && log[i].key == key && Recorded(log)[key] == Beat(log[i].at, log[i].timeout)
    ensures forall j :: i < j < |log| ==> log[j].key != key
  {
    var last := |log| - 1;
    if log[last].key == key { i := last; } else { i := LatestBeat(log[..last], key); }
  }

  /** A crit means exactly that no ping of the key recorded up to the lock has a time at or after
      now minus the latest timeout. */
  lemma CritMeansSilence(log: seq<Record>, now: int, early: nat, key: string)
    requires LoggedAround(log, now, early) && key in Recorded(log)
    ensures Judge(key, Recorded(log)[key], now).status == Crit
      <==> forall i :: 0 <= i < |log| && log[i].key == key ==> log[i].at < now - Recorded(log)[key].timeout
  {
    var i := LatestBeat(log, key);
    forall j | 0 <= j < |log| && log[j].key == key ensures log[j].at <= log[i].at {
      if j != i { assert j < i; }
    }
  }

  // A ping landing between the clock read and the lock forces ok.
  lemma GapPingForcesOk(log: seq<Record>, now: int, early: nat, key: string, i: nat)
    requires LoggedAround(log, now, early) && early <= i < |log| && log[i].key == key
    ensures key in Recorded(log) && Judge(key, Recorded(log)[key], now).status == OK
  {
    RecordedKeys(log, i);
    var l := LatestBeat(log, key);
    assert i <= l;
  }

  lemma {:induction false} RecordedKeys(log: seq<Record>, i: nat)
    requires i < |log|
    ensures log[i].key in Recorded(log)
  {
    if i < |log| - 1 { RecordedKeys(log[..|log| - 1], i); }
  }
}
