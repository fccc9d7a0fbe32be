/**
 * The Durable Object `SplitTestState` of split-test/worker-advanced.js: one
 * key-value storage per test holding sticky `assignment:` records, counters
 * under `testId:variant:metric` and `last_event` timestamps, with a prefix
 * listing for reports and a prefix deletion for resets.
 *
 * The transitions are first stated as functions on the storage map; the
 * class below performs them in place and is proved to agree with them.
 */
module StateStore {
  import opened Strings
  import opened Optional
  import opened Sampler

  /** A stored value: a variant id or a number (a counter or a timestamp). */
  datatype Value = Str(s: string) | Num(n: int)

  type Storage = map<string, Value>

  /** `await this.state.storage.get(key)`: `None` for a missing key. */
  function Lookup(storage: Storage, key: string): (r: Option<Value>)
    ensures r.Some? <==> key in storage
    ensures r.Some? ==> r.value == storage[key]
  {
    if key in storage then Some(storage[key]) else None
  }

  /** JavaScript truthiness of a stored value: missing, `""` and `0` are falsy. */
  predicate Truthy(v: Option<Value>) {
    v.Some? && v.value != Str("") && v.value != Num(0)
  }

  /** `current + amount`: numeric addition, or concatenation onto a string. */
  function Add(current: Value, amount: int): Value {
    match current
    case Num(n) => Num(n + amount)
    case Str(s) => Str(s + IntToString(amount))
  }

  /**
   * The storage after `incrementCounter(key, amount)`, which stores
   * `(get(key) || 0) + amount`: a missing counter counts from 0, a number
   * grows by exactly `amount`, and no other key changes.
   */
  function Incremented(storage: Storage, key: string, amount: int): (r: Storage)
    ensures r.Keys == storage.Keys + {key}
    ensures key !in storage ==> r[key] == Num(amount)
    ensures key in storage && storage[key].Num? ==> r[key] == Num(storage[key].n + amount)
    ensures forall k :: k in storage && k != key ==> r[k] == storage[k]
  {
    var current := Lookup(storage, key);
    storage[key := Add(if Truthy(current) then current.value else Num(0), amount)]
  }

  /** `assignment:${testId}:${userId}` */
  function AssignmentKey(testId: string, userId: string): string {
    "assignment:" + testId + ":" + userId
  }

  /** `${testId}:${variant}:${metric}` */
  function CounterKey(testId: string, variant: string, metric: string): string {
    testId + ":" + variant + ":" + metric
  }

  /** The configuration used when none is stored: `control` and `variant-a`, 50 each. */
  const DefaultVariants: seq<Variant> := [Variant("control", 50), Variant("variant-a", 50)]

  /** `config.variants`, where `config` is the stored configuration or the default. */
  function ConfigVariants(config: Option<seq<Variant>>): seq<Variant> {
    if config.Some? then config.value else DefaultVariants
  }

  /**
   * The id `this.assignVariant(testId)` returns for the uniform value `u`;
   * `None` where it throws, which is when the stored configuration lists no
   * variant (`config.variants[0]` is undefined).
   */
  function ConfigPick(config: Option<seq<Variant>>, u: real): (r: Option<string>)
    ensures r.Some? <==> |ConfigVariants(config)| > 0
    ensures r.Some? ==> exists i :: 0 <= i < |ConfigVariants(config)| && ConfigVariants(config)[i].id == r.value
  {
    var vs := ConfigVariants(config);
    if |vs| == 0 then None
    else
      var k := PickIndex(vs, Draw(vs, u));
      Some(vs[k].id)
  }

  /** Without a stored configuration, a draw below one half gives `control`, any other `variant-a`. */
  lemma DefaultSplit(u: real)
    requires 0.0 <= u < 1.0
    ensures ConfigPick(None, u) == Some(if u < 0.5 then "control" else "variant-a")
  {
    var vs := DefaultVariants;
    assert vs[..0] == [] && vs[..1] == [vs[0]] && vs[..2] == vs;
    assert Total([vs[0]]) == 50;
    assert Total(vs) == 100;
    assert Cumulative(vs, 0) == 0 && Cumulative(vs, 1) == 50 && Cumulative(vs, 2) == 100;
    if u < 0.5 {
      PickIndexInterval(vs, Draw(vs, u), 0);
    } else {
      PickIndexInterval(vs, Draw(vs, u), 1);
    }
  }

  /**
   * `handleAssignment` for `{ testId, userId }` when `assignVariant` would
   * return `pick`: the variant in the response (`None` where the request
   * fails) and the storage afterwards. A truthy stored assignment is
   * returned as it is; otherwise the pick is stored and then its
   * `assignments` counter is incremented.
   */
  function Assignment(storage: Storage, testId: string, userId: string, pick: Option<string>): (r: (Option<Value>, Storage))
    ensures r.0.None? <==> !Truthy(Lookup(storage, AssignmentKey(testId, userId))) && pick.None?
    ensures r.0.None? ==> r.1 == storage
    ensures storage.Keys <= r.1.Keys
  {
    var key := AssignmentKey(testId, userId);
    var stored := Lookup(storage, key);
    if Truthy(stored) then (stored, storage)
    else if pick.None? then (None, storage)
    else (Some(Str(pick.value)), Incremented(storage[key := Str(pick.value)], CounterKey(testId, pick.value, "assignments"), 1))
  }

  /** An existing assignment is returned and nothing changes, whatever would be drawn. */
  lemma ExistingAssignmentKept(storage: Storage, testId: string, userId: string, pick: Option<string>)
    requires Truthy(Lookup(storage, AssignmentKey(testId, userId)))
    ensures Assignment(storage, testId, userId, pick) == (Some(storage[AssignmentKey(testId, userId)]), storage)
  {
  }

  /**
   * A fresh assignment stores the pick, increments its `assignments` counter
   * by exactly one (from 0 when missing), and leaves every other key alone.
   */
  lemma FreshAssignmentCounts(storage: Storage, testId: string, userId: string, v: string)
    requires !Truthy(Lookup(storage, AssignmentKey(testId, userId)))
    requires CounterKey(testId, v, "assignments") != AssignmentKey(testId, userId)
    ensures var (r, after) := Assignment(storage, testId, userId, Some(v));
            var ck := CounterKey(testId, v, "assignments");
            r == Some(Str(v))
            && after[AssignmentKey(testId, userId)] == Str(v)
            && (ck !in storage ==> after[ck] == Num(1))
            && (ck in storage && storage[ck].Num? ==> after[ck] == Num(storage[ck].n + 1))
            && after.Keys == storage.Keys + {AssignmentKey(testId, userId), ck}
            && forall k :: k in storage && k != ck && k != AssignmentKey(testId, userId) ==> after[k] == storage[k]
  {
    var key := AssignmentKey(testId, userId);
    var ck := CounterKey(testId, v, "assignments");
    assert Assignment(storage, testId, userId, Some(v)).1 == Incremented(storage[key := Str(v)], ck, 1);
  }

  /**
   * Stickiness: once a request has been answered with a truthy variant, a
   * second request for the same test and user gets the same variant and
   * changes nothing, whatever it would draw.
   */
  lemma AssignmentSticks(storage: Storage, testId: string, userId: string, pick1: Option<string>, pick2: Option<string>)
    requires Truthy(Assignment(storage, testId, userId, pick1).0)
    requires pick1.Some? ==> CounterKey(testId, pick1.value, "assignments") != AssignmentKey(testId, userId)
    ensures var (r1, after) := Assignment(storage, testId, userId, pick1);
            Assignment(after, testId, userId, pick2) == (r1, after)
  {
    var key := AssignmentKey(testId, userId);
    if !Truthy(Lookup(storage, key)) {
      FreshAssignmentCounts(storage, testId, userId, pick1.value);
    }
  }

  /** The counter key and the assignment key differ when the test id has no `:` and is not `assignment`. */
  lemma KeysDistinct(testId: string, userId: string, v: string)
    requires ':' !in testId && testId != "assignment"
    ensures CounterKey(testId, v, "assignments") != AssignmentKey(testId, userId)
  {
    var a := "assignment";
    assert CounterKey(testId, v, "assignments") == testId + [':'] + (v + ":" + "assignments");
    assert AssignmentKey(testId, userId) == a + [':'] + (testId + ":" + userId);
    assert ':' !in a;
    if CounterKey(testId, v, "assignments") == AssignmentKey(testId, userId) {
      SeparatedHeads(testId, v + ":" + "assignments", a, testId + ":" + userId, ':');
    }
  }

  /**
   * The keys do collide for the test id `assignment`: a variant `assignment`
   * counted for the user `assignments` is written over that user's record,
   * which the increment then turns into the string `assignment1`, so a second
   * request is answered with a different value.
   */
  lemma CollisionBreaksStickiness(storage: Storage, pick2: Option<string>)
    requires AssignmentKey("assignment", "assignments") !in storage
    ensures CounterKey("assignment", "assignment", "assignments") == AssignmentKey("assignment", "assignments")
    ensures var (r1, after) := Assignment(storage, "assignment", "assignments", Some("assignment"));
            r1 == Some(Str("assignment"))
            && Assignment(after, "assignment", "assignments", pick2).0 == Some(Str("assignment1"))
  {
    var key := AssignmentKey("assignment", "assignments");
    assert CounterKey("assignment", "assignment", "assignments") == key;
    assert IntToString(1) == "1";
    var after := Assignment(storage, "assignment", "assignments", Some("assignment")).1;
    assert after == Incremented(storage[key := Str("assignment")], key, 1);
    assert after[key] == Str("assignment1");
  }

  /**
   * A reset of the test `assignment`, or of a test whose id is `assignment:`
   * followed by another test's id, deletes that other test's assignment
   * records, since they lie under its prefix.
   */
  lemma ResetWipesAssignments(storage: Storage, resetId: string, testId: string, userId: string)
    requires resetId == "assignment" || resetId == "assignment:" + testId
    ensures AssignmentKey(testId, userId) !in Reset(storage, Some(resetId))
  {
    var key := AssignmentKey(testId, userId);
    var p := TestPrefix(Some(resetId));
    if resetId == "assignment" {
      assert p == "assignment:";
    } else {
      assert p == "assignment:" + testId + ":";
    }
    assert key[..|p|] == p;
  }

  /** `value || 1` */
  function EventAmount(value: Option<int>): int {
    if value.Some? && value.value != 0 then value.value else 1
  }

  /**
   * The storage after `handleTracking` for `{ testId, variant, event, value }`
   * at time `now`: the event counter is incremented, then the variant's
   * `last_event` is set to `now`. The variant is not checked against any
   * configuration.
   */
  function Tracked(storage: Storage, testId: string, variant: string, event: string, value: Option<int>, now: int): (r: Storage)
    ensures r.Keys == storage.Keys + {CounterKey(testId, variant, event), CounterKey(testId, variant, "last_event")}
    ensures r[CounterKey(testId, variant, "last_event")] == Num(now)
    ensures event != "last_event" && CounterKey(testId, variant, event) !in storage ==>
              r[CounterKey(testId, variant, event)] == Num(EventAmount(value))
    ensures event != "last_event" && CounterKey(testId, variant, event) in storage
            && storage[CounterKey(testId, variant, event)].Num? ==>
              r[CounterKey(testId, variant, event)] == Num(storage[CounterKey(testId, variant, event)].n + EventAmount(value))
    ensures forall k :: k in storage && k != CounterKey(testId, variant, event) && k != CounterKey(testId, variant, "last_event") ==>
              r[k] == storage[k]
  {
    var ek := CounterKey(testId, variant, event);
    var tk := CounterKey(testId, variant, "last_event");
    var head := testId + ":" + variant;
    assert ek == head + [':'] + event && ek[|head| + 1..] == event;
    assert tk == head + [':'] + "last_event" && tk[|head| + 1..] == "last_event";
    Incremented(storage, ek, EventAmount(value))[tk := Num(now)]
  }

  /** An absent or zero `value` counts as one event. */
  lemma EventAmountDefault()
    ensures EventAmount(None) == 1 && EventAmount(Some(0)) == 1
    ensures forall n :: n != 0 ==> EventAmount(Some(n)) == n
  {
  }

  /** `${testId}:` for the `testId` query parameter; a missing parameter renders as `null`. */
  function TestPrefix(testId: Option<string>): string {
    (if testId.Some? then testId.value else "null") + ":"
  }

  /** The entries `storage.list({ prefix })` returns. */
  function Report(storage: Storage, testId: Option<string>): (r: Storage)
    ensures forall k :: k in r <==> k in storage && StartsWith(k, TestPrefix(testId))
    ensures forall k :: k in r ==> r[k] == storage[k]
  {
    map k | k in storage && StartsWith(k, TestPrefix(testId)) :: storage[k]
  }

  /** The storage after `handleReset`: every key under the prefix deleted. */
  function Reset(storage: Storage, testId: Option<string>): (r: Storage)
    ensures forall k :: k in r <==> k in storage && !StartsWith(k, TestPrefix(testId))
    ensures forall k :: k in r ==> r[k] == storage[k]
  {
    map k | k in storage && !StartsWith(k, TestPrefix(testId)) :: storage[k]
  }

  /** The counter keys of a test lie under its prefix. */
  lemma CounterKeyUnderPrefix(testId: string, variant: string, metric: string)
    ensures StartsWith(CounterKey(testId, variant, metric), TestPrefix(Some(testId)))
  {
    assert CounterKey(testId, variant, metric) == TestPrefix(Some(testId)) + (variant + ":" + metric);
  }

  /** A report taken after tracking shows the two keys tracking wrote, and the rest of the report as it was. */
  lemma ReportSeesTracking(storage: Storage, testId: string, variant: string, event: string, value: Option<int>, now: int)
    ensures var after := Tracked(storage, testId, variant, event, value, now);
            var ek := CounterKey(testId, variant, event);
            var tk := CounterKey(testId, variant, "last_event");
            Report(after, Some(testId)) == Report(storage, Some(testId))[ek := after[ek]][tk := Num(now)]
  {
    CounterKeyUnderPrefix(testId, variant, event);
    CounterKeyUnderPrefix(testId, variant, "last_event");
  }

  /** Resetting a test after tracking one of its events leaves what resetting alone leaves. */
  lemma ResetUndoesTracking(storage: Storage, testId: string, variant: string, event: string, value: Option<int>, now: int)
    ensures Reset(Tracked(storage, testId, variant, event, value, now), Some(testId)) == Reset(storage, Some(testId))
  {
    CounterKeyUnderPrefix(testId, variant, event);
    CounterKeyUnderPrefix(testId, variant, "last_event");
  }

  /** Report and reset split the storage: every key is reported or kept, never both. */
  lemma ReportResetPartition(storage: Storage, testId: Option<string>)
    ensures Report(storage, testId).Keys + Reset(storage, testId).Keys == storage.Keys
    ensures Report(storage, testId).Keys * Reset(storage, testId).Keys == {}
    ensures Report(Reset(storage, testId), testId) == map[]
  {
    var keep := Reset(storage, testId);
    assert Report(keep, testId).Keys == {};
  }

  /**
   * A reset never deletes an assignment record, unless the test id itself
   * begins with `assignment`: the records live under `assignment:`, not
   * under `${testId}:`.
   */
  lemma ResetKeepsAssignments(storage: Storage, testId: Option<string>, key: string)
    requires testId.Some? ==> !StartsWith(testId.value, "assignment")
    requires key in storage && StartsWith(key, "assignment:")
    ensures key in Reset(storage, testId) && Reset(storage, testId)[key] == storage[key]
    ensures key !in Report(storage, testId)
  {
    var p := TestPrefix(testId);
    var a := "assignment:";
    var j := PrefixDiffers(testId);
    assert key[..11] == a;
    assert key[j] == a[j];
    assert |p| <= |key| ==> key[..|p|][j] != p[j];
  }

  /** A position where `${testId}:` and `assignment:` differ. */
  lemma PrefixDiffers(testId: Option<string>) returns (j: nat)
    requires testId.Some? ==> !StartsWith(testId.value, "assignment")
    ensures j < |TestPrefix(testId)| && j < 11 && TestPrefix(testId)[j] != "assignment:"[j]
  {
    var a := "assignment";
    if testId.None? {
      j := 0;
    } else {
      var t := testId.value;
      if |t| < 10 {
        j := |t|;
        assert ':' !in a;
        assert "assignment:"[j] == a[j];
      } else {
        j := Mismatch(t[..10], a);
        assert t[j] == t[..10][j];
      }
    }
  }

  /** The object with its storage; the environment is passed to the methods that read it. */
  class SplitTestState {
    var storage: Storage

    constructor ()
      ensures storage == map[]
    {
      storage := map[];
    }

    /** `incrementCounter(key, amount)` */
    method IncrementCounter(key: string, amount: int)
      modifies this
      ensures storage == Incremented(old(storage), key, amount)
    {
      var current := Lookup(storage, key);
      var base := if Truthy(current) then current.value else Num(0);
      storage := storage[key := Add(base, amount)];
    }

    /** `assignVariant(testId)` with the stored configuration `config` (`None` when there is none). */
    method AssignVariant(config: Option<seq<Variant>>, u: real) returns (id: Option<string>)
      ensures id == ConfigPick(config, u)
    {
      var variants := if config.Some? then config.value else DefaultVariants;
      if |variants| == 0 {
        return None;
      }
      var picked := Sampler.AssignVariant(variants, u);
      return Some(picked);
    }

    /** `handleAssignment(request)`; `None` where the request fails. */
    method HandleAssignment(testId: string, userId: string, config: Option<seq<Variant>>, u: real)
      returns (variant: Option<Value>)
      modifies this
      ensures (variant, storage) == Assignment(old(storage), testId, userId, ConfigPick(config, u))
    {
      var key := AssignmentKey(testId, userId);
      var assignment := Lookup(storage, key);
      if !Truthy(assignment) {
        var pick := AssignVariant(config, u);
        if pick.None? {
          return None;
        }
        storage := storage[key := Str(pick.value)];
        IncrementCounter(CounterKey(testId, pick.value, "assignments"), 1);
        assignment := Some(Str(pick.value));
      }
      return assignment;
    }

    /** `handleTracking(request)` at time `now`. */
    method HandleTracking(testId: string, variant: string, event: string, value: Option<int>, now: int)
      modifies this
      ensures storage == Tracked(old(storage), testId, variant, event, value, now)
    {
      IncrementCounter(CounterKey(testId, variant, event), EventAmount(value));
      storage := storage[CounterKey(testId, variant, "last_event") := Num(now)];
    }

    /** `handleReport(request)`: the listed entries copied one by one into the response object. */
    method HandleReport(testId: Option<string>) returns (data: Storage)
      ensures data == Report(storage, testId)
    {
      var list := Report(storage, testId);
      data := map[];
      var remaining := list.Keys;
      while remaining != {}
        invariant remaining <= list.Keys
        invariant data == map k | k in list.Keys - remaining :: list[k]
        decreases remaining
      {
        var key :| key in remaining;
        data := data[key := list[key]];
        remaining := remaining - {key};
      }
    }

    /** `handleReset(request)` */
    method HandleReset(testId: Option<string>)
      modifies this
      ensures storage == Reset(old(storage), testId)
    {
      storage := Reset(storage, testId);
    }

    /** Two assignment requests for the same test and user get the same answer. */
    method RepeatedAssignment(testId: string, userId: string, config: Option<seq<Variant>>, u1: real, u2: real)
      returns (first: Option<Value>, second: Option<Value>)
      requires forall i :: 0 <= i < |ConfigVariants(config)| ==>
                 CounterKey(testId, ConfigVariants(config)[i].id, "assignments") != AssignmentKey(testId, userId)
      requires forall i :: 0 <= i < |ConfigVariants(config)| ==> ConfigVariants(config)[i].id != ""
      modifies this
      ensures first.Some? ==> second == first
    {
      ghost var before := storage;
      first := HandleAssignment(testId, userId, config, u1);
      if first.Some? {
        var pick := ConfigPick(config, u1);
        if pick.Some? {
          var i :| 0 <= i < |ConfigVariants(config)| && ConfigVariants(config)[i].id == pick.value;
          assert CounterKey(testId, pick.value, "assignments") != AssignmentKey(testId, userId);
        }
        assert Truthy(first) by {
          if !Truthy(Lookup(before, AssignmentKey(testId, userId))) {
            var i :| 0 <= i < |ConfigVariants(config)| && ConfigVariants(config)[i].id == pick.value;
          }
        }
        AssignmentSticks(before, testId, userId, pick, ConfigPick(config, u2));
      }
      second := HandleAssignment(testId, userId, config, u2);
    }
  }
}
