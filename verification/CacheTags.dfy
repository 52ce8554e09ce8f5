/**
 Cached responses and the tag sets that are meant to group them
 (internal/utils/utilities.go:118-138). Redis is one key space: a name holds either a
 cached value, which may expire, or a set, which does not.
 */
module CacheTags {
  import opened Wrappers

  datatype Value = Data(text: string, expiry: Option<nat>) | Tag(members: set<string>)

  datatype Keys = Keys(now: nat, names: map<string, Value>)

  function SetOf(names: seq<string>): set<string> {
    set i | 0 <= i < |names| :: names[i]
  }

  // ---------------------------------------------------------------- Redis commands

  /** SET overwrites whatever the name held; a zero ttl means no expiry. */
  function Set(k: Keys, key: string, text: string, ttl: nat): Keys {
    k.(names := k.names[key := Data(text, if ttl == 0 then None else Some(k.now + ttl))])
  }

  /** SADD fails on a name that holds a value. */
  function SAdd(k: Keys, key: string, member: string): Keys {
    if key !in k.names then k.(names := k.names[key := Tag({member})])
    else match k.names[key]
      case Tag(members) => k.(names := k.names[key := Tag(members + {member})])
      case Data(_, _) => k
  }

  /** SMEMBERS gives nothing for an absent name, and nothing for one that holds a value. */
  function SMembers(k: Keys, key: string): set<string> {
    if key in k.names && k.names[key].Tag? then k.names[key].members else {}
  }

  function Del(k: Keys, gone: set<string>): Keys {
    k.(names := k.names - gone)
  }

  function Elapse(k: Keys, ms: nat): Keys {
    var now := k.now + ms;
    Keys(now, map n | n in k.names && (k.names[n].Data? && k.names[n].expiry.Some? ==> now < k.names[n].expiry.value)
                :: k.names[n])
  }

  // ---------------------------------------------------------------- SetCache and ClearCache

  function Cached(k: Keys, key: string, text: string, ttl: nat, setKey: string): Keys {
    var k' := Set(k, key, text, ttl);
    if setKey == "" then k' else SAdd(k', setKey, key)
  }

  /** One round of the clearing loop as written: the set is deleted before it is read. */
  function DeleteThenRead(k: Keys, setKey: string): Keys {
    var k' := Del(k, {setKey});
    Del(k', SMembers(k', setKey))
  }

  /** The same round in the order its comment intends: the set is read, then it and its members are deleted. */
  function ReadThenDelete(k: Keys, setKey: string): Keys {
    Del(k, SMembers(k, setKey) + {setKey})
  }

  function ReadThenDeleteAll(k: Keys, setKeys: seq<string>): Keys {
    if setKeys == [] then k
    else ReadThenDelete(ReadThenDeleteAll(k, setKeys[..|setKeys| - 1]), setKeys[|setKeys| - 1])
  }

  class Cache {
    var keys: Keys

    constructor ()
      ensures keys == Keys(0, map[])
    {
      keys := Keys(0, map[]);
    }

    method SetCache(key: string, text: string, ttl: nat, setKey: string)
      modifies this
      ensures keys == Cached(old(keys), key, text, ttl, setKey)
    {
      keys := Set(keys, key, text, ttl);
      if setKey != "" {
        keys := SAdd(keys, setKey, key);
      }
    }

    /** As written, clearing removes the named sets, and nothing else: no key listed in them is touched. */
    method ClearCache(setKeys: seq<string>)
      modifies this
      ensures keys == Del(old(keys), SetOf(setKeys))
    {
      for i := 0 to |setKeys|
        invariant keys == Del(old(keys), SetOf(setKeys[..i]))
      {
        var setKey := setKeys[i];
        ghost var before := keys;
        keys := Del(keys, {setKey});
        var members := SMembers(keys, setKey);
        keys := if |members| > 0 then Del(keys, members) else keys;
        DeletedSetReadsEmpty(before, setKey);
        assert SetOf(setKeys[..i + 1]) == SetOf(setKeys[..i]) + {setKey} by {
          assert forall j :: 0 <= j < i ==> setKeys[..i + 1][j] == setKeys[..i][j];
          assert setKeys[..i + 1][i] == setKey;
        }
      }
      assert setKeys[..|setKeys|] == setKeys;
    }
  }

  lemma DeletedSetReadsEmpty(k: Keys, setKey: string)
    ensures SMembers(Del(k, {setKey}), setKey) == {}
    ensures DeleteThenRead(k, setKey) == Del(k, {setKey})
  {
    assert (k.names - {setKey}) - {} == k.names - {setKey};
  }

  /** A value stored is live, and the same, until its time to live is over, or for good if that is zero; sets do not expire. */
  lemma StoredUntilExpiry(k: Keys, key: string, text: string, ttl: nat, setKey: string, ms: nat)
    ensures var later := Elapse(Cached(k, key, text, ttl, setKey), ms);
            && (key in later.names <==> ttl == 0 || ms < ttl)
            && (key in later.names ==> later.names[key].Data? && later.names[key].text == text)
            && (forall n :: SMembers(later, n) == SMembers(Cached(k, key, text, ttl, setKey), n))
  {
  }

  // ---------------------------------------------------------------- runs

  datatype Step =
    | Store(key: string, text: string, ttl: nat, setKey: string)
    | Tick(ms: nat)
    | Clear(setKeys: seq<string>)

  /** How ClearCache treats each set: deleted before it is read, as written, or read first, as intended. */
  datatype Order = AsWritten | ReadFirst

  const START := Keys(0, map[])

  function Cleared(order: Order, k: Keys, setKeys: seq<string>): Keys {
    if order.AsWritten? then Del(k, SetOf(setKeys)) else ReadThenDeleteAll(k, setKeys)
  }

  function Next(order: Order, k: Keys, step: Step): Keys {
    match step
    case Store(key, text, ttl, setKey) => Cached(k, key, text, ttl, setKey)
    case Tick(ms) => Elapse(k, ms)
    case Clear(setKeys) => Cleared(order, k, setKeys)
  }

  function Run(order: Order, steps: seq<Step>): Keys {
    if steps == [] then START else Next(order, Run(order, steps[..|steps| - 1]), steps[|steps| - 1])
  }

  /** The tag is not the key itself, and its name holds no value. */
  predicate Listable(k: Keys, key: string, setKey: string) {
    setKey != key && !(setKey in k.names && k.names[setKey].Data?)
  }

  /** A key stored under a tag is listed there exactly when the tag's name is free or holds a set already. */
  lemma ListedIff(k: Keys, key: string, text: string, ttl: nat, setKey: string)
    requires setKey != ""
    ensures key in SMembers(Cached(k, key, text, ttl, setKey), setKey) <==> Listable(k, key, setKey)
    ensures Cached(k, key, text, ttl, setKey).names[key] == Data(text, if ttl == 0 then None else Some(k.now + ttl))
  {
  }

  /** The step stores no value under the tag's own name, and clears neither it nor, reading first, a set that lists it. */
  ghost predicate LeavesAlone(order: Order, k: Keys, step: Step, setKey: string) {
    match step
    case Store(key, _, _, _) => key != setKey
    case Tick(_) => true
    case Clear(setKeys) =>
      && setKey !in SetOf(setKeys)
      && (order.ReadFirst? ==> forall t :: t in SetOf(setKeys) ==> setKey !in SMembers(k, t))
  }

  /** Step i of the run stores a key under a tag that can list it, and the tag is left alone afterwards. */
  ghost predicate StoredUnder(order: Order, steps: seq<Step>, i: nat, key: string, setKey: string) {
    && i < |steps| && steps[i].Store? && steps[i].key == key && steps[i].setKey == setKey && setKey != ""
    && Listable(Run(order, steps[..i]), key, setKey)
    && (forall j {:trigger steps[j]} :: i < j < |steps| ==> LeavesAlone(order, Run(order, steps[..j]), steps[j], setKey))
  }

  lemma MembersStay(order: Order, k: Keys, step: Step, key: string, setKey: string)
    requires key in SMembers(k, setKey) && LeavesAlone(order, k, step, setKey)
    ensures key in SMembers(Next(order, k, step), setKey)
  {
    if step.Clear? && order.ReadFirst? {
      RoundsOnlyRemove(k, step.setKeys);
    }
  }

  lemma StoredEarlier(order: Order, steps: seq<Step>, i: nat, key: string, setKey: string)
    requires StoredUnder(order, steps, i, key, setKey) && i < |steps| - 1
    ensures StoredUnder(order, steps[..|steps| - 1], i, key, setKey)
    ensures LeavesAlone(order, Run(order, steps[..|steps| - 1]), steps[|steps| - 1], setKey)
  {
    var before := steps[..|steps| - 1];
    assert before[..i] == steps[..i];
    forall j | i < j < |before|
      ensures LeavesAlone(order, Run(order, before[..j]), before[j], setKey)
    {
      assert before[..j] == steps[..j] && before[j] == steps[j];
    }
  }

  /** Until a clear, in every run of either order, a key stored under a tag is in that tag's set. */
  lemma {:induction false} StoredIsListed(order: Order, steps: seq<Step>, i: nat, key: string, setKey: string)
    requires StoredUnder(order, steps, i, key, setKey)
    ensures key in SMembers(Run(order, steps), setKey)
    decreases |steps|
  {
    var n := |steps| - 1;
    if i == n {
      ListedIff(Run(order, steps[..n]), key, steps[i].text, steps[i].ttl, setKey);
    } else {
      StoredEarlier(order, steps, i, key, setKey);
      StoredIsListed(order, steps[..n], i, key, setKey);
      MembersStay(order, Run(order, steps[..n]), steps[n], key, setKey);
    }
  }

  // ---------------------------------------------------------------- clearing as written

  /** A name survives the clearing, with the same value, exactly when it is not itself among the names cleared. */
  lemma SurvivesClearIff(k: Keys, setKeys: seq<string>, name: string)
    requires name in k.names
    ensures var after := Cleared(AsWritten, k, setKeys);
            name in after.names && after.names[name] == k.names[name] <==> name !in SetOf(setKeys)
  {
  }

  /** So, after any run, clearing a tag removes a live key stored under it exactly when the key is named too. */
  lemma TagDoesNotClear(steps: seq<Step>, i: nat, key: string, setKeys: seq<string>)
    requires i < |steps| && steps[i].Store? && StoredUnder(AsWritten, steps, i, key, steps[i].setKey)
    requires steps[i].setKey in SetOf(setKeys) && key in Run(AsWritten, steps).names
    ensures key in SMembers(Run(AsWritten, steps), steps[i].setKey)
    ensures key !in Cleared(AsWritten, Run(AsWritten, steps), setKeys).names <==> key in SetOf(setKeys)
  {
    StoredIsListed(AsWritten, steps, i, key, steps[i].setKey);
    SurvivesClearIff(Run(AsWritten, steps), setKeys, key);
  }

  /** The shortest run in which it fails: a value stored under a tag outlives the clearing of the tag. */
  lemma TaggedValueSurvives()
    ensures var steps := [Store("k", "v", 0, "t")];
            && StoredUnder(AsWritten, steps, 0, "k", "t")
            && "k" in Cleared(AsWritten, Run(AsWritten, steps), ["t"]).names
  {
    var steps := [Store("k", "v", 0, "t")];
    assert "k"[0] != "t"[0];
    assert steps[..0] == [] && Run(AsWritten, steps[..0]) == START;
    assert SetOf(["t"]) == {"t"} by {
      assert ["t"][0] == "t";
    }
    SurvivesClearIff(Run(AsWritten, steps), ["t"], "k");
  }

  /** A value stored under its own name as tag is never listed, but clearing that name removes it. */
  lemma OwnNameClears(k: Keys, key: string, text: string, ttl: nat)
    ensures var stored := Cached(k, key, text, ttl, key);
            && key in stored.names && stored.names[key].Data? && stored.names[key].text == text
            && SMembers(stored, key) == {}
            && Cleared(AsWritten, stored, [key]).names == k.names - {key}
  {
    assert SetOf([key]) == {key} by {
      assert [key][0] == key;
    }
    if key != "" {
      assert Cached(k, key, text, ttl, key) == Set(k, key, text, ttl);
    }
    assert k.names[key := Data(text, if ttl == 0 then None else Some(k.now + ttl))] - {key} == k.names - {key};
  }

  // ---------------------------------------------------------------- clearing in the order intended

  lemma LastOf(setKeys: seq<string>)
    requires setKeys != []
    ensures SetOf(setKeys) == SetOf(setKeys[..|setKeys| - 1]) + {setKeys[|setKeys| - 1]}
  {
    var before := setKeys[..|setKeys| - 1];
    assert forall j :: 0 <= j < |before| ==> before[j] == setKeys[j];
  }

  /** The rounds only remove, and only cleared names and what was listed in their sets. */
  lemma {:induction false} RoundsOnlyRemove(k: Keys, setKeys: seq<string>)
    ensures var r := ReadThenDeleteAll(k, setKeys);
            && r.now == k.now
            && (forall n :: n in r.names ==> n in k.names && r.names[n] == k.names[n])
            && (forall n :: n in k.names && n !in r.names ==>
                  n in SetOf(setKeys) || exists t :: t in SetOf(setKeys) && n in SMembers(k, t))
  {
    if setKeys != [] {
      RoundsOnlyRemove(k, setKeys[..|setKeys| - 1]);
      LastOf(setKeys);
    }
  }

  /** No set is listed in another set that is cleared. */
  ghost predicate Flat(k: Keys, setKeys: seq<string>) {
    forall s, t :: s in SetOf(setKeys) && t in SMembers(k, s) ==> SMembers(k, t) == {}
  }

  /** The rounds remove the tags and all that was listed in them at the start. */
  lemma {:induction false} RoundsRemove(k: Keys, setKeys: seq<string>)
    requires Flat(k, setKeys)
    ensures var r := ReadThenDeleteAll(k, setKeys);
            forall t :: t in SetOf(setKeys) ==> t !in r.names && forall m :: m in SMembers(k, t) ==> m !in r.names
  {
    if setKeys != [] {
      var before, last := setKeys[..|setKeys| - 1], setKeys[|setKeys| - 1];
      LastOf(setKeys);
      RoundsRemove(k, before);
      RoundsOnlyRemove(k, before);
      var r := ReadThenDeleteAll(k, before);
      assert last in SetOf(before) || SMembers(r, last) == SMembers(k, last);
    }
  }

  /** The step stores a value under this name. */
  predicate StoresAs(step: Step, name: string) {
    step.Store? && step.key == name
  }

  /** The step lists another key under this tag. */
  predicate TagsWith(step: Step, tag: string) {
    step.Store? && step.setKey == tag && tag != "" && step.key != tag
  }

  ghost predicate EverStored(steps: seq<Step>, name: string) {
    exists i :: 0 <= i < |steps| && StoresAs(steps[i], name)
  }

  ghost predicate EverTag(steps: seq<Step>, tag: string) {
    exists i :: 0 <= i < |steps| && TagsWith(steps[i], tag)
  }

  /** No name is used both for a value and as the tag of another value. */
  ghost predicate Separate(steps: seq<Step>) {
    forall name :: !(EverStored(steps, name) && EverTag(steps, name))
  }

  /** Values and members are names stored in the run, and sets are tags of the run. */
  ghost predicate NamesOfRun(steps: seq<Step>, k: Keys) {
    forall n :: n in k.names ==>
      match k.names[n]
      case Data(_, _) => EverStored(steps, n)
      case Tag(members) => EverTag(steps, n) && forall m :: m in members ==> EverStored(steps, m)
  }

  lemma EverGrows(steps: seq<Step>, name: string)
    requires steps != []
    ensures var n := |steps| - 1;
            && (EverStored(steps[..n], name) || StoresAs(steps[n], name) <==> EverStored(steps, name))
            && (EverTag(steps[..n], name) || TagsWith(steps[n], name) <==> EverTag(steps, name))
  {
    var before := steps[..|steps| - 1];
    assert forall i :: 0 <= i < |before| ==> before[i] == steps[i];
    if EverStored(before, name) {
      var i :| 0 <= i < |before| && StoresAs(before[i], name);
      assert StoresAs(steps[i], name);
    }
    if EverTag(before, name) {
      var i :| 0 <= i < |before| && TagsWith(before[i], name);
      assert TagsWith(steps[i], name);
    }
  }

  lemma {:induction false} NamesComeFromSteps(order: Order, steps: seq<Step>)
    ensures NamesOfRun(steps, Run(order, steps))
  {
    if steps != [] {
      var n := |steps| - 1;
      NamesComeFromSteps(order, steps[..n]);
      forall name {
        EverGrows(steps, name);
      }
      var k, step := Run(order, steps[..n]), steps[n];
      assert NamesOfRun(steps, k);
      match step
      case Store(key, text, ttl, setKey) =>
        assert StoresAs(step, key);
        if setKey != "" && setKey != key {
          assert TagsWith(step, setKey);
        }
      case Tick(_) =>
      case Clear(setKeys) =>
        if order.ReadFirst? {
          RoundsOnlyRemove(k, setKeys);
        }
    }
  }

  /** In a run with separate names no tag holds a value, and no tag is listed in a set. */
  lemma SeparateIsFlat(order: Order, steps: seq<Step>, all: seq<Step>, tag: string)
    requires Separate(all) && EverTag(all, tag)
    requires forall name :: (EverStored(steps, name) ==> EverStored(all, name)) && (EverTag(steps, name) ==> EverTag(all, name))
    ensures var k := Run(order, steps);
            && !(tag in k.names && k.names[tag].Data?)
            && (forall t :: tag !in SMembers(k, t))
  {
    NamesComeFromSteps(order, steps);
  }

  lemma {:induction false} EverIsMonotone(steps: seq<Step>, j: nat)
    requires j <= |steps|
    ensures forall name :: (EverStored(steps[..j], name) ==> EverStored(steps, name)) && (EverTag(steps[..j], name) ==> EverTag(steps, name))
    decreases |steps| - j
  {
    if j < |steps| {
      EverIsMonotone(steps, j + 1);
      var longer := steps[..j + 1];
      assert longer[..j] == steps[..j];
      forall name {
        EverGrows(longer, name);
      }
    } else {
      assert steps[..j] == steps;
    }
  }

  /** Step i stores the key under the tag, and no later step clears that tag by name. */
  ghost predicate TaggedSince(steps: seq<Step>, i: nat, key: string, tag: string) {
    && i < |steps| && StoresAs(steps[i], key) && TagsWith(steps[i], tag)
    && (forall j :: i < j < |steps| && steps[j].Clear? ==> tag !in SetOf(steps[j].setKeys))
  }

  /** With separate names a stored key is listed, and stays listed, until its tag is cleared by name. */
  lemma SeparateNamesStayListed(order: Order, steps: seq<Step>, i: nat, key: string, tag: string)
    requires Separate(steps) && TaggedSince(steps, i, key, tag)
    ensures StoredUnder(order, steps, i, key, tag) && key in SMembers(Run(order, steps), tag)
  {
    assert EverTag(steps, tag);
    EverIsMonotone(steps, i);
    SeparateIsFlat(order, steps[..i], steps, tag);
    forall j | i < j < |steps|
      ensures LeavesAlone(order, Run(order, steps[..j]), steps[j], tag)
    {
      EverIsMonotone(steps, j);
      SeparateIsFlat(order, steps[..j], steps, tag);
      assert StoresAs(steps[j], tag) ==> EverStored(steps, tag);
    }
    StoredIsListed(order, steps, i, key, tag);
  }

  ghost predicate Unlisted(k: Keys, setKeys: seq<string>, name: string) {
    name !in SetOf(setKeys) && forall t :: t in SetOf(setKeys) ==> name !in SMembers(k, t)
  }

  /**
   The intended contract, for a program that reads each set before deleting it: after any
   run in which no name is both a value and a tag, clearing any list of names leaves no
   value stored under one of them, and keeps every name that is neither cleared nor listed
   under a cleared tag.
   */
  lemma ReadThenDeleteClears(steps: seq<Step>, setKeys: seq<string>)
    requires Separate(steps)
    ensures forall i, key, tag {:trigger TaggedSince(steps, i, key, tag)} ::
              TaggedSince(steps, i, key, tag) && tag in SetOf(setKeys) ==>
                key !in Cleared(ReadFirst, Run(ReadFirst, steps), setKeys).names
    ensures forall n :: n in SetOf(setKeys) ==> n !in Cleared(ReadFirst, Run(ReadFirst, steps), setKeys).names
    ensures forall n :: n in Run(ReadFirst, steps).names && Unlisted(Run(ReadFirst, steps), setKeys, n) ==>
              && n in Cleared(ReadFirst, Run(ReadFirst, steps), setKeys).names
              && Cleared(ReadFirst, Run(ReadFirst, steps), setKeys).names[n] == Run(ReadFirst, steps).names[n]
  {
    var k := Run(ReadFirst, steps);
    NamesComeFromSteps(ReadFirst, steps);
    assert Flat(k, setKeys);
    RoundsRemove(k, setKeys);
    RoundsOnlyRemove(k, setKeys);
    forall i, key, tag | TaggedSince(steps, i, key, tag) && tag in SetOf(setKeys)
      ensures key !in Cleared(ReadFirst, k, setKeys).names
    {
      SeparateNamesStayListed(ReadFirst, steps, i, key, tag);
    }
  }

  /** "b" is first a value listed under "a", and then the tag of "x". */
  const NESTED := [Store("b", "", 0, "a"), Clear(["b"]), Store("x", "", 0, "b"), Clear(["a"])]

  /**
   Without separate names the intended order does not do: in this run clearing "a" deletes the
   set "b" as if it were a value, and "x", stored under "b", survives the clearing of "b".
   */
  lemma NestedTagEscapes()
    ensures !Separate(NESTED) && TaggedSince(NESTED, 2, "x", "b")
    ensures "x" in Cleared(ReadFirst, Run(ReadFirst, NESTED), ["b"]).names
  {
    NestedRun();
    assert StoresAs(NESTED[0], "b") && TagsWith(NESTED[2], "b") && StoresAs(NESTED[2], "x") by {
      assert "x"[0] != "b"[0];
    }
    assert EverStored(NESTED, "b") && EverTag(NESTED, "b");
    forall j | 2 < j < |NESTED| && NESTED[j].Clear?
      ensures "b" !in SetOf(NESTED[j].setKeys)
    {
      assert j == 3 && "a"[0] != "b"[0];
    }
  }

  lemma NestedRun()
    ensures Run(ReadFirst, NESTED) == Keys(0, map["x" := Data("", None)])
    ensures ReadThenDeleteAll(Keys(0, map["x" := Data("", None)]), ["b"]) == Keys(0, map["x" := Data("", None)])
  {
    var b, x := Data("", None), Data("", None);
    assert "a"[0] != "b"[0] && "x"[0] != "b"[0] && "x"[0] != "a"[0];
    assert Run(ReadFirst, NESTED[..0]) == START;
    assert Run(ReadFirst, NESTED[..1]) == Keys(0, map["b" := b, "a" := Tag({"b"})]) by {
      assert NESTED[..1][..0] == NESTED[..0];
    }
    OneRound(Run(ReadFirst, NESTED[..1]), "b");
    assert Run(ReadFirst, NESTED[..2]) == Keys(0, map["a" := Tag({"b"})]) by {
      assert NESTED[..2][..1] == NESTED[..1];
    }
    assert Run(ReadFirst, NESTED[..3]) == Keys(0, map["a" := Tag({"b"}), "x" := x, "b" := Tag({"x"})]) by {
      assert NESTED[..3][..2] == NESTED[..2];
    }
    OneRound(Run(ReadFirst, NESTED[..3]), "a");
    assert NESTED[..4] == NESTED;
    OneRound(Keys(0, map["x" := x]), "b");
  }

  lemma OneRound(k: Keys, tag: string)
    ensures ReadThenDeleteAll(k, [tag]) == ReadThenDelete(k, tag)
  {
    assert [tag][..0] == [];
  }
}
